/**
  The gate against reading an event list before the dispatch queue has been drained
  (scripts/check_collect_events_settle.py). `CheckFunction` has the three passes of the script; the
  predicates before it say what each pass is meant to find, node by node.
 */
module SettleGate {
  import opened Wrappers
  import opened Syntax
  import opened SettleFixpoint

  // ---- what single nodes are ----

  /** `helpers` is the closed list of polling helpers. */
  predicate IsYieldPoint(n: Node, helpers: set<string>)
    requires WellFormed(n)
  {
    n.kind.Await? && n.kids[0].kind.Call? && ArityOk(n.kids[0]) &&
    var callee := n.kids[0].kids[0];
    match callee.kind
    case Name(id, _) => id == "settle" || id in helpers
    case Attribute(attr) =>
      attr == "drain" ||
      (attr == "sleep" && ArityOk(callee) && callee.kids[0].kind.Name? && callee.kids[0].kind.id == "asyncio")
    case _ => false
  }

  const POLLING_HELPERS: set<string> :=
    {"_wait_for", "_wait_for_event", "_wait_for_file", "_wait_for_calls", "_wait_until", "wait_until", "_poll"}

  predicate IsEmit(n: Node)
    requires WellFormed(n)
  {
    n.kind.Call? && n.kids[0].kind == Attribute("emit")
  }

  /** The list behind the bound method `<name>.append`. */
  function AppendTarget(n: Node): Option<string>
    requires WellFormed(n)
  {
    if n.kind == Attribute("append") && n.kids[0].kind.Name? then Some(n.kids[0].kind.id) else None
  }

  function SubscribedName(arg: Node): Option<string>
    requires WellFormed(arg)
  {
    if arg.kind.Lambda? then
      var body := arg.kids[|arg.kids| - 1];
      assert WellFormed(body);
      if body.kind.Call? then AppendTarget(body.kids[0]) else None
    else
      AppendTarget(arg)
  }

  predicate Subscribes(n: Node)
    requires WellFormed(n)
  {
    n.kind.Call? && n.kind.args > 0 && n.kids[0].kind.Attribute? &&
    n.kids[0].kind.attr in {"add_subscriber", "subscribe_audit_events"}
  }

  /** The subscription names its list as `<name>.append`. */
  predicate SubscribesByName(n: Node)
    requires WellFormed(n)
  {
    Subscribes(n) && AppendTarget(n.kids[1]).Some?
  }

  predicate IsBinding(n: Node) {
    n.kind.Assign? || (n.kind.AnnAssign? && n.kind.hasValue)
  }

  function BoundValue(n: Node): (v: Node)
    requires WellFormed(n) && IsBinding(n)
    ensures v in n.kids
  {
    n.kids[|n.kids| - 1]
  }

  function Targets(n: Node): (ts: seq<Node>)
    requires WellFormed(n) && IsBinding(n)
    ensures forall t :: t in ts ==> WellFormed(t)
  {
    if n.kind.Assign? then n.kids[..n.kind.targets] else n.kids[..1]
  }

  predicate CollectsEvents(n: Node)
    requires WellFormed(n)
  {
    n.kind.Call? && n.kids[0].kind.Name? && n.kids[0].kind.id == "collect_events"
  }

  /** The names that the node makes event lists of. */
  function Seeds(n: Node): set<string>
    requires WellFormed(n)
  {
    (if Subscribes(n) then
       var name := SubscribedName(n.kids[1]);
       if name.Some? then {name.value} else {}
     else {}) +
    (if IsBinding(n) && CollectsEvents(BoundValue(n)) then
       set t | t in Targets(n) && t.kind.Name? :: t.kind.id
     else {})
  }

  function LoadedNames(n: Node): set<string> {
    set a | a in Walk(n, []) && At(n, a).kind.Name? && At(n, a).kind.load :: At(n, a).kind.id
  }

  function NamesAt(n: Node, order: seq<Address>): seq<string>
    requires AllNodes(n, order)
  {
    if order == [] then []
    else
      assert order[0] in order;
      var first := At(n, order[0]);
      (if first.kind.Name? then [first.kind.id] else []) + NamesAt(n, order[1..])
  }

  /** The names that the targets mention, in whatever role. */
  function MentionedNames(ts: seq<Node>): seq<string> {
    if ts == [] then [] else NamesAt(ts[0], Walk(ts[0], [])) + MentionedNames(ts[1..])
  }

  function BindingOf(n: Node): Binding
    requires WellFormed(n) && IsBinding(n)
  {
    Binding(LoadedNames(BoundValue(n)), MentionedNames(Targets(n)))
  }

  // ---- what the gate is meant to find ----

  /** `x.append`, the bound method. */
  predicate IsAppendOf(n: Node, x: string) {
    n.kind == Attribute("append") && |n.kids| == 1 && n.kids[0].kind.Name? && n.kids[0].kind.id == x
  }

  /** `x.append`, or a lambda whose body calls it. */
  predicate AppendsTo(arg: Node, x: string) {
    IsAppendOf(arg, x) ||
    (arg.kind.Lambda? && arg.kids != [] &&
     var body := arg.kids[|arg.kids| - 1]; body.kind.Call? && body.kids != [] && IsAppendOf(body.kids[0], x))
  }

  predicate CallsByName(n: Node, f: string) {
    n.kind.Call? && n.kids != [] && n.kids[0].kind.Name? && n.kids[0].kind.id == f
  }

  /** The node subscribes an appending to `x` to events, or binds the collected events to `x`. */
  predicate MakesList(n: Node, x: string) {
    match n.kind
    case Call(args) =>
      args > 0 && |n.kids| > 1 && AppendsTo(n.kids[1], x) &&
      (n.kids[0].kind == Attribute("add_subscriber") || n.kids[0].kind == Attribute("subscribe_audit_events"))
    case Assign(k) =>
      |n.kids| == k + 1 && CallsByName(n.kids[k], "collect_events") &&
      exists i :: 0 <= i < k && n.kids[i].kind.Name? && n.kids[i].kind.id == x
    case AnnAssign(true) =>
      |n.kids| == 3 && CallsByName(n.kids[2], "collect_events") && n.kids[0].kind.Name? && n.kids[0].kind.id == x
    case _ => false
  }

  ghost predicate IsSeed(root: Node, x: string) {
    exists a :: HasNode(root, a) && MakesList(At(root, a), x)
  }

  /** Somewhere in the expression the name is read. */
  ghost predicate LoadsName(v: Node, x: string) {
    exists b :: HasNode(v, b) && At(v, b).kind == Name(x, true)
  }

  /** Somewhere in the target the name stands. */
  ghost predicate HoldsName(t: Node, y: string) {
    exists b :: HasNode(t, b) && At(t, b).kind.Name? && At(t, b).kind.id == y
  }

  /** An assignment whose value reads `x` and one of whose targets holds `y`. */
  ghost predicate Carries(n: Node, x: string, y: string) {
    match n.kind
    case Assign(k) => |n.kids| == k + 1 && LoadsName(n.kids[k], x) && exists i :: 0 <= i < k && HoldsName(n.kids[i], y)
    case AnnAssign(true) => |n.kids| == 3 && LoadsName(n.kids[2], x) && HoldsName(n.kids[0], y)
    case _ => false
  }

  /** The event list bound at `x` flows into `y` by one assignment of the function. */
  ghost predicate Flows(root: Node, x: string, y: string) {
    exists a :: HasNode(root, a) && Carries(At(root, a), x, y)
  }

  ghost predicate IsFlow(root: Node, p: seq<string>)
    requires WellFormed(root)
  {
    p != [] && IsSeed(root, p[0]) && forall i :: 0 < i < |p| ==> Flows(root, p[i - 1], p[i])
  }

  /** `x` holds an event list or something derived from one. */
  ghost predicate Tainted(root: Node, x: string)
    requires WellFormed(root)
  {
    exists p :: IsFlow(root, p) && p[|p| - 1] == x
  }

  ghost predicate InLambda(root: Node, a: Address)
    requires HasNode(root, a)
  {
    exists p :: HasNode(root, p) && At(root, p).kind.Lambda? && Below(p, a)
  }

  ghost predicate YieldsInBody(root: Node, helpers: set<string>, loop: Address)
    requires WellFormed(root) && HasNode(root, loop) && At(root, loop).kind.While?
  {
    exists j: nat, q ::
      1 <= j <= At(root, loop).kind.body && HasNode(root, q) && Below(loop + [j], q) &&
      IsYieldPoint(At(root, q), helpers)
  }

  ghost predicate InPollCondition(root: Node, helpers: set<string>, a: Address)
    requires WellFormed(root)
  {
    exists p ::
      HasNode(root, p) && At(root, p).kind.While? && Below(p + [0], a) && YieldsInBody(root, helpers, p)
  }

  /** The node is the list named by an argument `<name>.append` of a subscription. */
  predicate IsRegistration(root: Node, a: Address)
    requires WellFormed(root)
  {
    2 <= |a| && var call := a[..|a| - 2];
    a == call + [1, 0] && HasNode(root, call) && SubscribesByName(At(root, call))
  }

  ghost predicate BeforeEveryEmit(root: Node, line: nat)
    requires WellFormed(root)
  {
    (exists q :: HasNode(root, q) && IsEmit(At(root, q))) &&
    forall q :: HasNode(root, q) && IsEmit(At(root, q)) ==> line < At(root, q).line
  }

  ghost predicate AfterSomeYield(root: Node, helpers: set<string>, line: nat)
    requires WellFormed(root)
  {
    exists q :: HasNode(root, q) && IsYieldPoint(At(root, q), helpers) && At(root, q).line < line
  }

  ghost predicate IsTaintedRead(root: Node, a: Address)
    requires WellFormed(root)
  {
    HasNode(root, a) && At(root, a).kind.Name? && At(root, a).kind.load && Tainted(root, At(root, a).kind.id)
  }

  /** A read that can race the queue. */
  ghost predicate Races(root: Node, helpers: set<string>, a: Address)
    requires WellFormed(root)
  {
    IsTaintedRead(root, a) &&
    !InLambda(root, a) && !InPollCondition(root, helpers, a) && !IsRegistration(root, a) &&
    !BeforeEveryEmit(root, At(root, a).line) && !AfterSomeYield(root, helpers, At(root, a).line)
  }

  /** The racing reads among some nodes, as the script prints them. */
  ghost function Report(root: Node, helpers: set<string>, order: seq<Address>): seq<(nat, string)>
    requires WellFormed(root)
  {
    if order == [] then []
    else
      var a := order[|order| - 1];
      Report(root, helpers, order[..|order| - 1]) +
      if Races(root, helpers, a) then [(At(root, a).line, At(root, a).kind.id)] else []
  }

  // ---- the passes ----

  /** What the first pass has gathered when it has seen the nodes `order`. */
  ghost predicate Gathered(root: Node, helpers: set<string>, order: seq<Address>, tracked: set<string>,
                           yieldLines: seq<nat>, emitLines: seq<nat>, registered: set<Address>)
    requires WellFormed(root) && AllNodes(root, order)
  {
    && (forall x :: x in tracked <==> exists a :: a in order && x in Seeds(At(root, a)))
    && (forall l :: l in yieldLines <==> exists a :: a in order && IsYieldPoint(At(root, a), helpers) && At(root, a).line == l)
    && (forall l :: l in emitLines <==> exists a :: a in order && IsEmit(At(root, a)) && At(root, a).line == l)
    && (forall b :: b in registered <==> exists a ::
          a in order && SubscribesByName(At(root, a)) && b == a + [1, 0])
  }

  method Gather(root: Node, helpers: set<string>, order: seq<Address>)
    returns (tracked: set<string>, yieldLines: seq<nat>, emitLines: seq<nat>, registered: set<Address>)
    requires WellFormed(root) && AllNodes(root, order)
    ensures Gathered(root, helpers, order, tracked, yieldLines, emitLines, registered)
  {
    hide IsYieldPoint, IsEmit, HasNode, At, Seeds, WellFormed, SubscribesByName;
    tracked, yieldLines, emitLines, registered := {}, [], [], {};
    for i := 0 to |order|
      invariant AllNodes(root, order[..i])
      invariant Gathered(root, helpers, order[..i], tracked, yieldLines, emitLines, registered)
    {
      var a := order[i];
      assert a in order;
      assert order[..i + 1] == order[..i] + [a];
      assert forall b :: b in order[..i + 1] <==> b in order[..i] || b == a;
      var n := At(root, a);
      if IsYieldPoint(n, helpers) {
        yieldLines := yieldLines + [n.line];
      }
      if IsEmit(n) {
        emitLines := emitLines + [n.line];
      }
      tracked := tracked + Seeds(n);
      if SubscribesByName(n) {
        registered := registered + {a + [1, 0]};
      }
    }
    assert order[..|order|] == order;
  }

  /** The assignments in walk order. */
  function BindingsIn(root: Node, order: seq<Address>): (r: seq<Binding>)
    requires WellFormed(root) && AllNodes(root, order)
    ensures forall b :: b in r <==> exists a :: a in order && IsBinding(At(root, a)) && b == BindingOf(At(root, a))
  {
    if order == [] then []
    else
      assert order[0] in order && forall a :: a in order <==> a == order[0] || a in order[1..];
      (if IsBinding(At(root, order[0])) then [BindingOf(At(root, order[0]))] else []) + BindingsIn(root, order[1..])
  }

  lemma {:induction false} EveryNodeIsWalked(root: Node)
    ensures forall a :: a in Walk(root, []) <==> HasNode(root, a)
  {
    forall a ensures a in Walk(root, []) <==> HasNode(root, a) {
      WalkCovers(root, [], a);
    }
  }

  lemma SeedsAre(n: Node, x: string)
    requires WellFormed(n)
    ensures x in Seeds(n) <==> MakesList(n, x)
  {
    if n.kind.Call? && n.kind.args > 0 {
      assert n.kids[1] in n.kids;
      AppendsIff(n.kids[1], x);
    }
    if IsBinding(n) {
      var ts := Targets(n);
      assert BoundValue(n) in n.kids;
      assert forall i :: 0 <= i < |ts| ==> ts[i] == n.kids[i];
      assert ArityOk(BoundValue(n));
    }
  }

  lemma AppendsIff(arg: Node, x: string)
    requires WellFormed(arg)
    ensures SubscribedName(arg) == Some(x) <==> AppendsTo(arg, x)
  {
    if arg.kind.Lambda? {
      var body := arg.kids[|arg.kids| - 1];
      assert WellFormed(body);
      if body.kind.Call? {
        assert body.kids[0] in body.kids;
      }
    }
  }

  lemma LoadsAre(v: Node, x: string)
    ensures x in LoadedNames(v) <==> LoadsName(v, x)
  {
    hide Walk, HasNode, At;
    EveryNodeIsWalked(v);
  }

  lemma {:induction false} NamesAtAre(n: Node, order: seq<Address>, x: string)
    requires AllNodes(n, order)
    ensures x in NamesAt(n, order) <==> exists a :: a in order && At(n, a).kind.Name? && At(n, a).kind.id == x
  {
    if order == [] {
    } else {
      assert order[0] in order && forall a :: a in order <==> a == order[0] || a in order[1..];
      NamesAtAre(n, order[1..], x);
    }
  }

  lemma {:induction false} MentionsAre(ts: seq<Node>, y: string)
    ensures y in MentionedNames(ts) <==> exists i :: 0 <= i < |ts| && HoldsName(ts[i], y)
  {
    if ts == [] {
    } else {
      hide Walk, HasNode, At, NamesAt;
      EveryNodeIsWalked(ts[0]);
      NamesAtAre(ts[0], Walk(ts[0], []), y);
      assert y in NamesAt(ts[0], Walk(ts[0], [])) <==> HoldsName(ts[0], y);
      MentionsAre(ts[1..], y);
      assert forall i :: 0 < i < |ts| ==> ts[i] == ts[1..][i - 1];
    }
  }

  /** What the second pass reads off an assignment. */
  lemma BindingMeans(n: Node, x: string, y: string)
    requires WellFormed(n)
    ensures IsBinding(n) && x in BindingOf(n).loads && y in BindingOf(n).binds <==> Carries(n, x, y)
  {
    hide LoadedNames, MentionedNames, LoadsName, HoldsName;
    if IsBinding(n) {
      LoadsAre(BoundValue(n), x);
      MentionsAre(Targets(n), y);
      var ts := Targets(n);
      assert forall i :: 0 <= i < |ts| ==> ts[i] == n.kids[i];
    }
  }

  lemma {:induction false} EdgesAreFlows(root: Node, x: string, y: string)
    requires WellFormed(root)
    ensures Edge(BindingsIn(root, Walk(root, [])), x, y) <==> Flows(root, x, y)
  {
    hide Walk, BindingOf, HasNode, At, WellFormed, Carries;
    EveryNodeIsWalked(root);
    forall a | HasNode(root, a)
      ensures IsBinding(At(root, a)) && x in BindingOf(At(root, a)).loads && y in BindingOf(At(root, a)).binds <==>
        Carries(At(root, a), x, y)
    {
      BindingMeans(At(root, a), x, y);
    }
  }

  lemma {:induction false} TaintedIsReachable(root: Node, seeds: set<string>, x: string)
    requires WellFormed(root) && forall s :: s in seeds <==> IsSeed(root, s)
    ensures Tainted(root, x) <==> Reachable(BindingsIn(root, Walk(root, [])), seeds, x)
  {
    hide Walk, BindingsIn, Edge, Flows, IsSeed, WellFormed;
    var bs := BindingsIn(root, Walk(root, []));
    forall p ensures IsFlow(root, p) <==> IsChain(bs, seeds, p) {
      forall i | 0 < i < |p| ensures Edge(bs, p[i - 1], p[i]) <==> Flows(root, p[i - 1], p[i]) {
        EdgesAreFlows(root, p[i - 1], p[i]);
      }
    }
  }

  method IsInsideLambda(root: Node, order: seq<Address>, a: Address) returns (r: bool)
    requires WellFormed(root) && order == Walk(root, []) && HasNode(root, a)
    ensures r <==> InLambda(root, a)
  {
    hide Walk, WellFormed, HasNode, At;
    EveryNodeIsWalked(root);
    for i := 0 to |order|
      invariant forall p :: p in order[..i] ==> !(At(root, p).kind.Lambda? && Below(p, a))
    {
      var p := order[i];
      assert p in order && order[..i + 1] == order[..i] + [p];
      if At(root, p).kind.Lambda? {
        WalkCovers(root, p, a);
        if a in Walk(root, p) {
          return true;
        }
      }
    }
    assert order[..|order|] == order;
    r := false;
  }

  method LoopYields(root: Node, helpers: set<string>, loop: Address) returns (r: bool)
    requires WellFormed(root) && HasNode(root, loop) && At(root, loop).kind.While?
    ensures r <==> YieldsInBody(root, helpers, loop)
  {
    hide Walk, IsYieldPoint;
    var body := At(root, loop).kind.body;
    for j := 1 to body + 1
      invariant forall k: nat, q ::
        1 <= k < j && HasNode(root, q) && Below(loop + [k], q) ==> !IsYieldPoint(At(root, q), helpers)
    {
      AtChild(root, loop, j);
      var inside := Walk(root, loop + [j]);
      for i := 0 to |inside|
        invariant forall q :: q in inside[..i] ==> !IsYieldPoint(At(root, q), helpers)
      {
        var q := inside[i];
        assert q in inside && inside[..i + 1] == inside[..i] + [q];
        if IsYieldPoint(At(root, q), helpers) {
          WalkCovers(root, loop + [j], q);
          return true;
        }
      }
      assert inside[..|inside|] == inside;
      forall q | HasNode(root, q) && Below(loop + [j], q) ensures !IsYieldPoint(At(root, q), helpers) {
        WalkCovers(root, loop + [j], q);
      }
    }
    r := false;
  }

  method IsWhilePollCondition(root: Node, helpers: set<string>, order: seq<Address>, a: Address) returns (r: bool)
    requires WellFormed(root) && order == Walk(root, []) && HasNode(root, a)
    ensures r <==> InPollCondition(root, helpers, a)
  {
    hide Walk, YieldsInBody;
    EveryNodeIsWalked(root);
    for i := 0 to |order|
      invariant forall p :: p in order[..i] ==>
        !(At(root, p).kind.While? && Below(p + [0], a) && YieldsInBody(root, helpers, p))
    {
      var p := order[i];
      assert p in order && order[..i + 1] == order[..i] + [p];
      if At(root, p).kind.While? {
        AtChild(root, p, 0);
        WalkCovers(root, p + [0], a);
        if a in Walk(root, p + [0]) {
          var waits := LoopYields(root, helpers, p);
          if waits {
            return true;
          }
        }
      }
    }
    assert order[..|order|] == order;
    r := false;
  }

  function Min(s: seq<nat>): (m: nat)
    requires s != []
    ensures m in s && forall x :: x in s ==> m <= x
  {
    if |s| == 1 then s[0]
    else
      assert forall x :: x in s ==> x == s[0] || x in s[1..];
      var m := Min(s[1..]);
      if s[0] < m then s[0] else m
  }

  /** What the gathered facts say about one read. */
  lemma {:induction false} FactsDecide(root: Node, helpers: set<string>, order: seq<Address>, tracked: set<string>, yieldLines: seq<nat>,
                    emitLines: seq<nat>, registered: set<Address>, a: Address)
    requires WellFormed(root) && order == Walk(root, [])
    requires Gathered(root, helpers, order, tracked, yieldLines, emitLines, registered)
    requires HasNode(root, a)
    ensures forall x :: x in tracked <==> IsSeed(root, x)
    ensures a in registered <==> IsRegistration(root, a)
    ensures BeforeEveryEmit(root, At(root, a).line) <==> emitLines != [] && At(root, a).line < Min(emitLines)
    ensures AfterSomeYield(root, helpers, At(root, a).line) <==> yieldLines != [] && At(root, a).line > Min(yieldLines)
  {
    hide Walk, HasNode, At, WellFormed, IsYieldPoint, IsEmit, Seeds, SubscribesByName, MakesList;
    EveryNodeIsWalked(root);
    forall q, x | HasNode(root, q) ensures x in Seeds(At(root, q)) <==> MakesList(At(root, q), x) {
      SeedsAre(At(root, q), x);
    }
    assert forall q: Address :: (q + [1, 0])[..|q + [1, 0]| - 2] == q;
    assert emitLines != [] ==> emitLines[0] in emitLines;
    forall q | HasNode(root, q) && IsEmit(At(root, q)) ensures At(root, q).line in emitLines {
      assert q in order;
    }
    var line := At(root, a).line;
    forall q | HasNode(root, q) && IsYieldPoint(At(root, q), helpers) ensures At(root, q).line in yieldLines {
      assert q in order;
    }
    if yieldLines != [] && line > Min(yieldLines) {
      assert Min(yieldLines) in yieldLines;
    }
  }

  lemma {:induction false} NothingTracked(root: Node, helpers: set<string>, order: seq<Address>)
    requires WellFormed(root) && forall x :: !Tainted(root, x)
    ensures Report(root, helpers, order) == []
  {
    if order == [] {
    } else {
      NothingTracked(root, helpers, order[..|order| - 1]);
    }
  }

  /** The tests of the third pass on one read. */
  method CanRace(root: Node, helpers: set<string>, order: seq<Address>, tracked: set<string>, yieldLines: seq<nat>,
                 emitLines: seq<nat>, registered: set<Address>, a: Address) returns (r: bool)
    requires WellFormed(root) && order == Walk(root, []) && a in order
    requires exists seeds :: Gathered(root, helpers, order, seeds, yieldLines, emitLines, registered)
    requires forall x :: x in tracked <==> Tainted(root, x)
    ensures r <==> Races(root, helpers, a)
    ensures r ==> At(root, a).kind.Name?
  {
    hide Walk, Gathered, Tainted, InLambda, InPollCondition, IsRegistration, BeforeEveryEmit, AfterSomeYield, WellFormed;
    ghost var seeds :| Gathered(root, helpers, order, seeds, yieldLines, emitLines, registered);
    FactsDecide(root, helpers, order, seeds, yieldLines, emitLines, registered, a);
    var n := At(root, a);
    if !(n.kind.Name? && n.kind.id in tracked && n.kind.load) {
      return false;
    }
    var deferred := IsInsideLambda(root, order, a);
    if deferred {
      return false;
    }
    var polled := IsWhilePollCondition(root, helpers, order, a);
    if polled {
      return false;
    }
    if a in registered {
      return false;
    }
    if emitLines != [] && n.line < Min(emitLines) {
      return false;
    }
    r := !(yieldLines != [] && n.line > Min(yieldLines));
  }

  /** `_check_function`. */
  method CheckFunction(root: Node) returns (flagged: seq<(nat, string)>)
    requires WellFormed(root) && root.kind.Def?
    ensures flagged == if root.kind.isAsync then Report(root, POLLING_HELPERS, Walk(root, [])) else []
  {
    flagged := CheckWithHelpers(root, POLLING_HELPERS);
  }

  /** The three passes, for any list of polling helpers. */
  method CheckWithHelpers(root: Node, helpers: set<string>) returns (flagged: seq<(nat, string)>)
    requires WellFormed(root) && root.kind.Def?
    ensures flagged == if root.kind.isAsync then Report(root, helpers, Walk(root, [])) else []
  {
    hide Walk, Gathered, Tainted, Report, WellFormed;
    flagged := [];
    if !root.kind.isAsync {
      return;
    }
    var order := Walk(root, []);
    var seeds, yieldLines, emitLines, registered := Gather(root, helpers, order);
    var tracked := TrackedNames(root, helpers, order, seeds, yieldLines, emitLines, registered);
    if tracked == {} {
      NothingTracked(root, helpers, order);
      return;
    }
    flagged := FlagReads(root, helpers, order, tracked, yieldLines, emitLines, registered);
  }

  /** The second pass. */
  method TrackedNames(root: Node, helpers: set<string>, order: seq<Address>, seeds: set<string>, yieldLines: seq<nat>,
                      emitLines: seq<nat>, registered: set<Address>) returns (tracked: set<string>)
    requires WellFormed(root) && order == Walk(root, [])
    requires Gathered(root, helpers, order, seeds, yieldLines, emitLines, registered)
    ensures forall x :: x in tracked <==> Tainted(root, x)
  {
    hide Walk, Gathered, Tainted, WellFormed, At;
    FactsDecide(root, helpers, order, seeds, yieldLines, emitLines, registered, []);
    tracked := Propagate(BindingsIn(root, order), seeds);
    forall x ensures x in tracked <==> Tainted(root, x) {
      TaintedIsReachable(root, seeds, x);
    }
  }

  /** The third pass. */
  method FlagReads(root: Node, helpers: set<string>, order: seq<Address>, tracked: set<string>, yieldLines: seq<nat>,
                   emitLines: seq<nat>, registered: set<Address>) returns (flagged: seq<(nat, string)>)
    requires WellFormed(root) && order == Walk(root, [])
    requires exists seeds :: Gathered(root, helpers, order, seeds, yieldLines, emitLines, registered)
    requires forall x :: x in tracked <==> Tainted(root, x)
    ensures flagged == Report(root, helpers, order)
  {
    hide Walk, Gathered, Tainted, Races, WellFormed, At;
    flagged := [];
    for i := 0 to |order|
      invariant flagged == Report(root, helpers, order[..i])
    {
      var a := order[i];
      assert order[..i + 1][..i] == order[..i];
      var races := CanRace(root, helpers, order, tracked, yieldLines, emitLines, registered, a);
      if races {
        flagged := flagged + [(At(root, a).line, At(root, a).kind.id)];
      }
    }
    assert order[..|order|] == order;
  }

  // ---- the nodes of the first pass, as spelled ----

  /** `await f(...)`. */
  predicate AwaitsCallOf(n: Node, f: Node) {
    n.kind.Await? && |n.kids| == 1 && n.kids[0].kind.Call? && n.kids[0].kids != [] && n.kids[0].kids[0] == f
  }

  /** `settle`, `x.drain`, `asyncio.sleep`, or one of the seven polling helpers. */
  predicate Yields(f: Node) {
    f.kind == Attribute("drain") ||
    (f.kind == Attribute("sleep") && |f.kids| == 1 && f.kids[0].kind.Name? && f.kids[0].kind.id == "asyncio") ||
    (f.kind.Name? &&
     (f.kind.id == "settle" || f.kind.id == "_wait_for" || f.kind.id == "_wait_for_event" || f.kind.id == "_wait_for_file" ||
      f.kind.id == "_wait_for_calls" || f.kind.id == "_wait_until" || f.kind.id == "wait_until" || f.kind.id == "_poll"))
  }

  /** A yield point of the script is an awaited call of one of these. */
  lemma YieldPointIff(n: Node)
    requires WellFormed(n)
    ensures IsYieldPoint(n, POLLING_HELPERS) <==> exists f :: AwaitsCallOf(n, f) && Yields(f)
  {
    if n.kind.Await? && n.kids[0].kind.Call? {
      var call := n.kids[0];
      assert call in n.kids && WellFormed(call);
      var f := call.kids[0];
      assert f in call.kids && WellFormed(f);
      assert AwaitsCallOf(n, f);
      HelpersAre(f);
    }
  }

  lemma HelpersAre(f: Node)
    requires ArityOk(f)
    ensures Yields(f) <==>
      (match f.kind
       case Name(id, _) => id == "settle" || id in POLLING_HELPERS
       case Attribute(attr) => attr == "drain" || (attr == "sleep" && f.kids[0].kind.Name? && f.kids[0].kind.id == "asyncio")
       case _ => false)
  {}

  /** An emit is a call of `x.emit`; a registration is the name `x` in an argument `x.append` of a subscription. */
  lemma EmitsAndRegistrations(root: Node, a: Address)
    requires WellFormed(root) && HasNode(root, a)
    ensures IsEmit(At(root, a)) <==> At(root, a).kind.Call? && At(root, a).kids[0].kind == Attribute("emit")
    ensures IsRegistration(root, a) <==>
      exists call :: a == call + [1, 0] && HasNode(root, call) && RegistersFirst(At(root, call))
  {
    hide At, HasNode;
    forall call | HasNode(root, call) ensures RegistersFirst(At(root, call)) <==> SubscribesByName(At(root, call)) {
      RegistersIff(At(root, call));
    }
    forall call: Address ensures (call + [1, 0])[..|call + [1, 0]| - 2] == call {}
  }

  /** `y.add_subscriber(x.append, ...)` or `y.subscribe_audit_events(x.append, ...)`. */
  predicate RegistersFirst(n: Node) {
    n.kind.Call? && n.kind.args > 0 && |n.kids| > 1 &&
    (n.kids[0].kind == Attribute("add_subscriber") || n.kids[0].kind == Attribute("subscribe_audit_events")) &&
    n.kids[1].kind == Attribute("append") && |n.kids[1].kids| == 1 && n.kids[1].kids[0].kind.Name?
  }

  lemma RegistersIff(n: Node)
    requires WellFormed(n)
    ensures RegistersFirst(n) <==> SubscribesByName(n)
  {
    if n.kind.Call? && n.kind.args > 0 {
      assert n.kids[1] in n.kids && ArityOk(n.kids[1]);
    }
  }

  // ---- what the report means ----

  lemma ReportPeels(root: Node, helpers: set<string>, front: seq<Address>, a: Address, line: nat, x: string)
    requires WellFormed(root)
    ensures (line, x) in Report(root, helpers, front + [a]) <==>
      ((line, x) in Report(root, helpers, front)
       || (Races(root, helpers, a) && At(root, a).line == line && At(root, a).kind.id == x))
  {
    hide Races, At, HasNode, WellFormed;
    var order := front + [a];
    assert order[..|order| - 1] == front && order[|order| - 1] == a;
  }

  lemma {:induction false} ReportLists(root: Node, helpers: set<string>, order: seq<Address>, line: nat, x: string)
    requires WellFormed(root)
    ensures (line, x) in Report(root, helpers, order) <==>
      exists a :: a in order && Races(root, helpers, a) && At(root, a).line == line && At(root, a).kind.id == x
  {
    if order == [] {
    } else {
      hide Races, At, HasNode, WellFormed, Report;
      var front, a := order[..|order| - 1], order[|order| - 1];
      assert order == front + [a];
      ReportLists(root, helpers, front, line, x);
      ReportPeels(root, helpers, front, a, line, x);
    }
  }

  /** The report names exactly the racing reads. */
  lemma {:induction false} ReportMeans(root: Node, helpers: set<string>, line: nat, x: string)
    requires WellFormed(root)
    ensures (line, x) in Report(root, helpers, Walk(root, [])) <==>
      exists a :: Races(root, helpers, a) && At(root, a).line == line && At(root, a).kind.id == x
  {
    hide Walk;
    ReportLists(root, helpers, Walk(root, []), line, x);
    EveryNodeIsWalked(root);
  }

  /** More yield points never add a flag. */
  lemma {:induction false} MoreYieldsFewerFlags(root: Node, few: set<string>, many: set<string>, line: nat, x: string)
    requires WellFormed(root) && few <= many
    requires (line, x) in Report(root, many, Walk(root, []))
    ensures (line, x) in Report(root, few, Walk(root, []))
  {
    hide Walk, Tainted, InLambda, IsRegistration, BeforeEveryEmit;
    ReportMeans(root, many, line, x);
    ReportMeans(root, few, line, x);
    forall n: Node | WellFormed(n) && IsYieldPoint(n, few) ensures IsYieldPoint(n, many) {}
  }

  /** Settling above every read of an event list silences the gate. */
  lemma {:induction false} SettlingFirstIsEnough(root: Node, helpers: set<string>, settled: nat)
    requires WellFormed(root)
    requires exists q :: HasNode(root, q) && IsYieldPoint(At(root, q), helpers) && At(root, q).line == settled
    requires forall a :: IsTaintedRead(root, a) ==> settled < At(root, a).line
    ensures Report(root, helpers, Walk(root, [])) == []
  {
    hide Walk;
    var report := Report(root, helpers, Walk(root, []));
    if report != [] {
      var (line, x) := report[0];
      assert (line, x) in report;
      ReportMeans(root, helpers, line, x);
      assert false;
    }
  }

  // ---- "in the same function" ----

  /** The node belongs to the function itself and not to one nested in it. */
  predicate IsOwn(root: Node, q: Address) {
    HasNode(root, q) && forall k :: 0 < k < |q| && HasNode(root, q[..k]) ==> !At(root, q[..k]).kind.Def?
  }

  ghost predicate AfterOwnYield(root: Node, helpers: set<string>, line: nat)
    requires WellFormed(root)
  {
    exists q :: IsOwn(root, q) && IsYieldPoint(At(root, q), helpers) && At(root, q).line < line
  }

  ghost predicate AfterNestedYield(root: Node, helpers: set<string>, line: nat)
    requires WellFormed(root)
  {
    exists q :: HasNode(root, q) && !IsOwn(root, q) && IsYieldPoint(At(root, q), helpers) && At(root, q).line < line
  }

  /** A read that no yield point of the function itself precedes and nothing else excuses. */
  ghost predicate RacesInFunction(root: Node, helpers: set<string>, a: Address)
    requires WellFormed(root)
  {
    IsTaintedRead(root, a) &&
    !InLambda(root, a) && !InPollCondition(root, helpers, a) && !IsRegistration(root, a) &&
    !BeforeEveryEmit(root, At(root, a).line) && !AfterOwnYield(root, helpers, At(root, a).line)
  }

  /** The gate misses such a read exactly when a nested function yields on an earlier line. */
  lemma MissedIffNestedYield(root: Node, helpers: set<string>, a: Address)
    requires WellFormed(root) && RacesInFunction(root, helpers, a)
    ensures !Races(root, helpers, a) <==> AfterNestedYield(root, helpers, At(root, a).line)
  {
    hide Tainted, InLambda, InPollCondition, IsRegistration, BeforeEveryEmit, IsYieldPoint, IsOwn, WellFormed, At;
    var line := At(root, a).line;
    forall q | HasNode(root, q) && IsYieldPoint(At(root, q), helpers) && At(root, q).line < line
      ensures !IsOwn(root, q)
    {
    }
  }

  function NameNode(id: string, load: bool, line: nat): Node {
    Node(Name(id, load), line, [])
  }

  function CallOf(id: string, line: nat): Node {
    Node(Call(0), line, [NameNode(id, true, line)])
  }

  /** `x = collect_events()`, then a nested `async def` that awaits `settle()`, then a read of `x`. */
  function NestedSettle(): Node {
    Node(Def(true), 1, [
      Node(Assign(1), 2, [NameNode("x", false, 2), CallOf("collect_events", 2)]),
      Node(Def(true), 3, [Node(Await, 4, [CallOf("settle", 4)])]),
      NameNode("x", true, 5)])
  }

  predicate Occurs(n: Node, p: Kind -> bool) {
    p(n.kind) || exists k :: k in n.kids && Occurs(k, p)
  }

  lemma {:induction false} OccursAt(n: Node, q: Address, p: Kind -> bool)
    requires HasNode(n, q) && p(At(n, q).kind)
    ensures Occurs(n, p)
    decreases |q|
  {
    if q == [] {
    } else {
      OccursAt(n.kids[q[0]], q[1..], p);
      assert n.kids[q[0]] in n.kids;
    }
  }

  lemma NestedSettleShape()
    ensures HasNode(NestedSettle(), [2]) && At(NestedSettle(), [2]) == NameNode("x", true, 5)
    ensures HasNode(NestedSettle(), [0]) && At(NestedSettle(), [0]) == NestedSettle().kids[0]
    ensures HasNode(NestedSettle(), [1]) && At(NestedSettle(), [1]) == NestedSettle().kids[1]
    ensures HasNode(NestedSettle(), [1, 0]) && At(NestedSettle(), [1, 0]) == NestedSettle().kids[1].kids[0]
  {
    assert [2][1..] == [] && [0][1..] == [] && [1][1..] == [];
    assert [1, 0][1..] == [0];
  }

  lemma NestedSettleIsWellFormed()
    ensures WellFormed(NestedSettle())
  {
    var root := NestedSettle();
    assert WellFormed(CallOf("collect_events", 2)) && WellFormed(CallOf("settle", 4));
    assert WellFormed(root.kids[0]) && WellFormed(root.kids[1]) && WellFormed(root.kids[2]);
  }

  lemma NestedSettleIsTainted()
    ensures WellFormed(NestedSettle()) && IsTaintedRead(NestedSettle(), [2])
  {
    hide At, HasNode, WellFormed;
    NestedSettleShape();
    NestedSettleIsWellFormed();
    var root := NestedSettle();
    var assign := root.kids[0];
    assert Targets(assign)[0] == NameNode("x", false, 2) && Targets(assign)[0] in Targets(assign);
    assert MakesList(assign, "x");
    assert IsSeed(root, "x") by { assert HasNode(root, [0]) && MakesList(At(root, [0]), "x"); }
    assert IsFlow(root, ["x"]) && ["x"][|["x"]| - 1] == "x";
  }

  lemma NothingEmits()
    ensures !Occurs(NestedSettle(), (k: Kind) => k.Attribute?)
  {
    var root, isAttribute := NestedSettle(), (k: Kind) => k.Attribute?;
    assert !Occurs(CallOf("collect_events", 2), isAttribute) && !Occurs(CallOf("settle", 4), isAttribute);
    assert !Occurs(root.kids[0], isAttribute) && !Occurs(root.kids[1], isAttribute) && !Occurs(root.kids[2], isAttribute);
  }

  lemma NothingElseAwaits()
    ensures !Occurs(NestedSettle().kids[0], (k: Kind) => k.Await?) && !Occurs(NestedSettle().kids[2], (k: Kind) => k.Await?)
  {
    assert !Occurs(CallOf("collect_events", 2), (k: Kind) => k.Await?);
  }

  lemma OnlyNestedYields(helpers: set<string>, q: Address)
    requires WellFormed(NestedSettle())
    requires HasNode(NestedSettle(), q) && IsYieldPoint(At(NestedSettle(), q), helpers)
    ensures !IsOwn(NestedSettle(), q)
  {
    var root := NestedSettle();
    NestedSettleShape();
    NothingElseAwaits();
    var isAwait := (k: Kind) => k.Await?;
    if q != [] && q[0] != 1 {
      OccursAt(root.kids[q[0]], q[1..], isAwait);
    }
    if q != [] && q != [1] && q[0] == 1 {
      assert q[..1] == [1];
    }
  }

  lemma NestedSettleEmitsNothing(q: Address)
    requires WellFormed(NestedSettle()) && HasNode(NestedSettle(), q)
    ensures !IsEmit(At(NestedSettle(), q))
  {
    var root := NestedSettle();
    NothingEmits();
    if IsEmit(At(root, q)) {
      AtChild(root, q, 0);
      OccursAt(root, q + [0], (k: Kind) => k.Attribute?);
    }
  }

  lemma NestedSettleIsPlain(helpers: set<string>)
    requires WellFormed(NestedSettle()) && HasNode(NestedSettle(), [2])
    ensures !InLambda(NestedSettle(), [2]) && !InPollCondition(NestedSettle(), helpers, [2])
    ensures !IsRegistration(NestedSettle(), [2])
  {
    hide WellFormed, YieldsInBody;
    NestedSettleShape();
    forall p | Below(p, [2]) ensures p == [] || p == [2] {}
  }

  /** The read of `x` in that function is missed, although the function itself never yields. */
  lemma NestedSettleIsMissed(helpers: set<string>)
    ensures WellFormed(NestedSettle()) && RacesInFunction(NestedSettle(), helpers, [2])
    ensures !Races(NestedSettle(), helpers, [2])
  {
    hide WellFormed, HasNode, At, IsEmit, InLambda, InPollCondition, IsRegistration, IsTaintedRead;
    var root := NestedSettle();
    NestedSettleShape();
    NestedSettleIsTainted();
    NestedSettleIsPlain(helpers);
    forall q | HasNode(root, q) ensures !IsEmit(At(root, q)) {
      NestedSettleEmitsNothing(q);
    }
    forall q | HasNode(root, q) && IsYieldPoint(At(root, q), helpers) ensures !IsOwn(root, q) {
      OnlyNestedYields(helpers, q);
    }
    assert IsYieldPoint(At(root, [1, 0]), helpers) && At(root, [1, 0]).line == 4;
  }
}
