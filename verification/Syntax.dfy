/** Python syntax trees as far as the gate scripts look at them, and the walk over their nodes. */
module Syntax {
  datatype Literal = IntLit(value: int) | BoolLit(truth: bool) | StrLit(text: string) | OtherLit

  /**
    The node types that some script tests for; everything else is `Other`. The comment after a kind
    gives the children in `ast.iter_child_nodes` order. Operator and context nodes are left out.
   */
  datatype Kind =
    | Name(id: string, load: bool)
    | Attribute(attr: string)         // value
    | Subscript                       // value, slice
    | BinOp(div: bool)                // left, right
    | Call(args: nat)                 // func, arguments, keywords
    | Constant(literal: Literal)
    | Await                           // value
    | Assign(targets: nat)            // targets, value
    | AnnAssign(hasValue: bool)       // target, annotation, value
    | Lambda                          // parameters, body
    | While(body: nat)                // test, body, orelse
    | Def(isAsync: bool)              // anything
    | Return(hasResult: bool)         // value
    | Handler(typed: bool)            // type, body
    | TupleOrList                     // elements
    | Other

  datatype Node = Node(kind: Kind, line: nat, kids: seq<Node>)

  predicate ArityOk(n: Node) {
    match n.kind
    case Name(_, _) => |n.kids| == 0
    case Constant(_) => |n.kids| == 0
    case Attribute(_) => |n.kids| == 1
    case Subscript => |n.kids| == 2
    case BinOp(_) => |n.kids| == 2
    case Call(args) => 1 + args <= |n.kids|
    case Await => |n.kids| == 1
    case Assign(targets) => |n.kids| == targets + 1
    case AnnAssign(hasValue) => |n.kids| == if hasValue then 3 else 2
    case Lambda => 1 <= |n.kids|
    case While(body) => 1 + body <= |n.kids|
    case Return(hasResult) => |n.kids| == if hasResult then 1 else 0
    case Handler(typed) => if typed then 1 <= |n.kids| else true
    case _ => true
  }

  /** What the parser guarantees of every tree. */
  predicate WellFormed(n: Node) {
    ArityOk(n) && forall k :: k in n.kids ==> WellFormed(k)
  }

  // ---- nodes by position ----

  /** A node of a tree is the path of child indices that leads to it; equal subtrees are different nodes. */
  type Address = seq<nat>

  predicate HasNode(root: Node, a: Address)
    decreases |a|
  {
    a == [] || (a[0] < |root.kids| && HasNode(root.kids[a[0]], a[1..]))
  }

  function At(root: Node, a: Address): (n: Node)
    requires HasNode(root, a)
    ensures WellFormed(root) ==> WellFormed(n)
    decreases |a|
  {
    if a == [] then root else At(root.kids[a[0]], a[1..])
  }

  lemma {:induction false} AtAppend(root: Node, a: Address, b: Address)
    ensures HasNode(root, a + b) <==> HasNode(root, a) && HasNode(At(root, a), b)
    ensures HasNode(root, a + b) ==> At(root, a + b) == At(At(root, a), b)
    decreases |a|
  {
    if a == [] {
      assert a + b == b;
    } else {
      assert (a + b)[0] == a[0] && (a + b)[1..] == a[1..] + b;
      if a[0] < |root.kids| {
        AtAppend(root.kids[a[0]], a[1..], b);
      }
    }
  }

  lemma AtChild(root: Node, a: Address, i: nat)
    requires HasNode(root, a)
    ensures HasNode(root, a + [i]) <==> i < |At(root, a).kids|
    ensures HasNode(root, a + [i]) ==> At(root, a + [i]) == At(root, a).kids[i]
  {
    AtAppend(root, a, [i]);
    assert [i][1..] == [];
  }

  lemma AtParent(root: Node, a: Address)
    requires HasNode(root, a) && a != []
    ensures HasNode(root, a[..|a| - 1]) && a[|a| - 1] < |At(root, a[..|a| - 1]).kids|
    ensures At(root, a) == At(root, a[..|a| - 1]).kids[a[|a| - 1]]
  {
    assert a == a[..|a| - 1] + [a[|a| - 1]];
    AtAppend(root, a[..|a| - 1], [a[|a| - 1]]);
    AtChild(root, a[..|a| - 1], a[|a| - 1]);
  }

  /** `b` is `a` or a node below it. */
  predicate Below(a: Address, b: Address) {
    a <= b
  }

  lemma BelowTrans(a: Address, b: Address, c: Address)
    requires Below(a, b) && Below(b, c)
    ensures Below(a, c)
  {
    assert c[..|b|][..|a|] == c[..|a|];
  }

  // ---- ast.walk ----

  function Size(n: Node): nat {
    1 + SizeAll(n.kids)
  }

  function SizeAll(ns: seq<Node>): nat {
    if ns == [] then 0 else Size(ns[0]) + SizeAll(ns[1..])
  }

  function Children(root: Node, a: Address): (r: seq<Address>)
    requires HasNode(root, a)
    ensures |r| == |At(root, a).kids|
    ensures forall i :: 0 <= i < |r| ==> r[i] == a + [i]
    ensures forall q :: q in r ==> HasNode(root, q)
  {
    var r := seq(|At(root, a).kids|, i requires 0 <= i => a + [i]);
    assert forall i :: 0 <= i < |r| ==> HasNode(root, r[i]) by {
      forall i | 0 <= i < |r| ensures HasNode(root, r[i]) { AtChild(root, a, i); }
    }
    r
  }

  predicate AllNodes(root: Node, queue: seq<Address>) {
    forall q :: q in queue ==> HasNode(root, q)
  }

  function QueueSize(root: Node, queue: seq<Address>): nat
    requires AllNodes(root, queue)
  {
    if queue == [] then 0
    else
      assert queue[0] in queue;
      Size(At(root, queue[0])) + QueueSize(root, queue[1..])
  }

  lemma {:induction false} QueueAppend(root: Node, a: seq<Address>, b: seq<Address>)
    requires AllNodes(root, a) && AllNodes(root, b)
    ensures QueueSize(root, a + b) == QueueSize(root, a) + QueueSize(root, b)
  {
    if a == [] {
      assert a + b == b;
    } else {
      assert (a + b)[0] == a[0] && (a + b)[1..] == a[1..] + b;
      QueueAppend(root, a[1..], b);
    }
  }

  lemma {:induction false} QueueOfKids(root: Node, a: Address, from: nat)
    requires HasNode(root, a) && from <= |At(root, a).kids|
    ensures AllNodes(root, Children(root, a)[from..])
    ensures QueueSize(root, Children(root, a)[from..]) == SizeAll(At(root, a).kids[from..])
    decreases |At(root, a).kids| - from
  {
    var kids, rest := At(root, a).kids, Children(root, a)[from..];
    assert AllNodes(root, rest);
    if from == |kids| {
    } else {
      AtChild(root, a, from);
      QueueOfKids(root, a, from + 1);
      assert rest[1..] == Children(root, a)[from + 1..];
      assert kids[from..][1..] == kids[from + 1..];
    }
  }

  lemma QueueShrinks(root: Node, queue: seq<Address>)
    requires AllNodes(root, queue) && queue != []
    ensures AllNodes(root, queue[1..] + Children(root, queue[0]))
    ensures QueueSize(root, queue[1..] + Children(root, queue[0])) < QueueSize(root, queue)
  {
    assert queue[0] in queue;
    QueueAppend(root, queue[1..], Children(root, queue[0]));
    QueueOfKids(root, queue[0], 0);
    assert Children(root, queue[0])[0..] == Children(root, queue[0]);
    assert At(root, queue[0]).kids[0..] == At(root, queue[0]).kids;
  }

  /** The nodes in the order in which `ast.walk` yields them, starting from a queue. */
  function WalkFrom(root: Node, queue: seq<Address>): (r: seq<Address>)
    requires AllNodes(root, queue)
    ensures AllNodes(root, r)
    decreases QueueSize(root, queue)
  {
    if queue == [] then []
    else
      QueueShrinks(root, queue);
      assert queue[0] in queue;
      [queue[0]] + WalkFrom(root, queue[1..] + Children(root, queue[0]))
  }

  /** `ast.walk(node)` for the node at `a`. */
  function Walk(root: Node, a: Address): (r: seq<Address>)
    requires HasNode(root, a)
    ensures AllNodes(root, r)
  {
    WalkFrom(root, [a])
  }

  ghost predicate Pending(queue: seq<Address>, b: Address) {
    exists q :: q in queue && Below(q, b)
  }

  /** Taking the first node off the queue and its children on leaves the same nodes to visit. */
  lemma PendingStep(root: Node, queue: seq<Address>, b: Address)
    requires AllNodes(root, queue) && queue != [] && HasNode(root, queue[0]) && HasNode(root, b)
    ensures Pending(queue, b) <==> b == queue[0] || Pending(queue[1..] + Children(root, queue[0]), b)
  {
    var first, next := queue[0], queue[1..] + Children(root, queue[0]);
    assert first in queue && Below(first, first);
    if Pending(queue, b) && b != first {
      var q :| q in queue && Below(q, b);
      if q == first {
        ChildOnTheWay(root, first, b);
        var child := first + [b[|first|]];
        assert Children(root, first)[b[|first|]] == child;
        assert child in next;
      } else {
        assert q in queue[1..];
        assert q in next;
      }
    }
    if Pending(next, b) {
      var q :| q in next && Below(q, b);
      assert q in queue[1..] ==> q in queue;
      if q in Children(root, first) {
        BelowTrans(first, q, b);
      }
    }
  }

  lemma {:induction false} WalkFromCovers(root: Node, queue: seq<Address>, b: Address)
    requires AllNodes(root, queue)
    ensures b in WalkFrom(root, queue) <==> HasNode(root, b) && Pending(queue, b)
    decreases QueueSize(root, queue)
  {
    if queue == [] {
    } else {
      assert queue[0] in queue;
      QueueShrinks(root, queue);
      WalkFromCovers(root, queue[1..] + Children(root, queue[0]), b);
      if HasNode(root, b) {
        PendingStep(root, queue, b);
      }
    }
  }

  lemma ChildOnTheWay(root: Node, a: Address, b: Address)
    requires HasNode(root, b) && Below(a, b) && a != b
    ensures HasNode(root, a) && b[|a|] < |At(root, a).kids| && Below(a + [b[|a|]], b) && HasNode(root, a + [b[|a|]])
  {
    var i := b[|a|];
    assert b == a + b[|a|..];
    assert b == (a + [i]) + b[|a| + 1..];
    AtAppend(root, a, b[|a|..]);
    AtAppend(root, a + [i], b[|a| + 1..]);
    AtChild(root, a, i);
  }

  /** A walk visits exactly the nodes below its start. */
  lemma WalkCovers(root: Node, a: Address, b: Address)
    requires HasNode(root, a)
    ensures b in Walk(root, a) <==> HasNode(root, b) && Below(a, b)
  {
    WalkFromCovers(root, [a], b);
    if Below(a, b) { assert a in [a]; }
  }
}
