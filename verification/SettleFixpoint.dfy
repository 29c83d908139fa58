/** The `while changed` loop of the settle gate computes a least fixpoint. */
module SettleFixpoint {
  /** An assignment, by the names its value loads and the names its targets mention. */
  datatype Binding = Binding(loads: set<string>, binds: seq<string>)

  predicate Closed(bindings: seq<Binding>, s: set<string>) {
    forall b :: b in bindings && b.loads * s != {} ==> forall x :: x in b.binds ==> x in s
  }

  /** `t` is the smallest set that holds the seeds and is closed under the assignments. */
  ghost predicate LeastClosed(bindings: seq<Binding>, seeds: set<string>, t: set<string>) {
    seeds <= t && Closed(bindings, t) && forall s :: seeds <= s && Closed(bindings, s) ==> t <= s
  }

  predicate Edge(bindings: seq<Binding>, x: string, y: string) {
    exists b :: b in bindings && x in b.loads && y in b.binds
  }

  /** A chain of assignments from a seed to the last name of `p`. */
  predicate IsChain(bindings: seq<Binding>, seeds: set<string>, p: seq<string>) {
    p != [] && p[0] in seeds && forall i :: 0 < i < |p| ==> Edge(bindings, p[i - 1], p[i])
  }

  ghost predicate Reachable(bindings: seq<Binding>, seeds: set<string>, x: string) {
    exists p :: IsChain(bindings, seeds, p) && p[|p| - 1] == x
  }

  function AllBinds(bindings: seq<Binding>): (r: set<string>)
    ensures forall b, x :: b in bindings && x in b.binds ==> x in r
  {
    if bindings == [] then {} else (set x | x in bindings[0].binds) + AllBinds(bindings[1..])
  }

  /** Every name of `t` is reached by a chain of assignments. */
  ghost predicate Reached(bindings: seq<Binding>, seeds: set<string>, t: set<string>) {
    forall x :: x in t ==> Reachable(bindings, seeds, x)
  }

  lemma SeedsAreReached(bindings: seq<Binding>, seeds: set<string>)
    ensures Reached(bindings, seeds, seeds)
  {
    forall x | x in seeds ensures Reachable(bindings, seeds, x) {
      assert IsChain(bindings, seeds, [x]);
      assert [x][|[x]| - 1] == x;
    }
  }

  lemma StepIsReached(bindings: seq<Binding>, seeds: set<string>, b: Binding, x: string, y: string)
    requires Reachable(bindings, seeds, x) && b in bindings && x in b.loads && y in b.binds
    ensures Reachable(bindings, seeds, y)
  {
    var p :| IsChain(bindings, seeds, p) && p[|p| - 1] == x;
    var q := p + [y];
    assert Edge(bindings, x, y);
    assert IsChain(bindings, seeds, q) && q[|q| - 1] == y;
  }

  lemma {:induction false} ChainStaysInside(bindings: seq<Binding>, seeds: set<string>, s: set<string>, p: seq<string>)
    requires seeds <= s && Closed(bindings, s) && IsChain(bindings, seeds, p)
    ensures p[|p| - 1] in s
    decreases |p|
  {
    if |p| == 1 {
    } else {
      var q := p[..|p| - 1];
      assert IsChain(bindings, seeds, q);
      ChainStaysInside(bindings, seeds, s, q);
      var x, y := p[|p| - 2], p[|p| - 1];
      assert Edge(bindings, p[|p| - 1 - 1], p[|p| - 1]);
      var b :| b in bindings && x in b.loads && y in b.binds;
      assert x in b.loads * s;
    }
  }

  lemma ReachedIsLeast(bindings: seq<Binding>, seeds: set<string>, t: set<string>)
    requires seeds <= t && Closed(bindings, t) && Reached(bindings, seeds, t)
    ensures LeastClosed(bindings, seeds, t)
    ensures forall x :: x in t <==> Reachable(bindings, seeds, x)
  {
    forall s | seeds <= s && Closed(bindings, s) ensures t <= s {
      forall x | x in t ensures x in s {
        var p :| IsChain(bindings, seeds, p) && p[|p| - 1] == x;
        ChainStaysInside(bindings, seeds, s, p);
      }
    }
    forall x | Reachable(bindings, seeds, x) ensures x in t {
      var p :| IsChain(bindings, seeds, p) && p[|p| - 1] == x;
      ChainStaysInside(bindings, seeds, t, p);
    }
  }

  /** One run of the `for` loop over the assignments. */
  method Sweep(bindings: seq<Binding>, seeds: set<string>, tracked: set<string>) returns (next: set<string>, changed: bool)
    requires Reached(bindings, seeds, tracked) && seeds <= tracked
    ensures Reached(bindings, seeds, next) && tracked <= next <= tracked + AllBinds(bindings)
    ensures changed <==> next != tracked
    ensures !changed ==> Closed(bindings, next)
  {
    hide Reachable;
    next, changed := tracked, false;
    for i := 0 to |bindings|
      invariant Reached(bindings, seeds, next) && tracked <= next <= tracked + AllBinds(bindings)
      invariant changed <==> next != tracked
      invariant !changed ==> Closed(bindings[..i], next)
    {
      var b := bindings[i];
      assert b in bindings && bindings[..i + 1] == bindings[..i] + [b];
      if b.loads * next == {} {
        continue;
      }
      var x :| x in b.loads * next;
      for k := 0 to |b.binds|
        invariant Reached(bindings, seeds, next) && tracked <= next <= tracked + AllBinds(bindings) && x in next
        invariant changed <==> next != tracked
        invariant !changed ==> Closed(bindings[..i], next)
        invariant forall j :: 0 <= j < k ==> b.binds[j] in next
      {
        if b.binds[k] !in next {
          StepIsReached(bindings, seeds, b, x, b.binds[k]);
          next := next + {b.binds[k]};
          changed := true;
        }
      }
    }
    assert bindings[..|bindings|] == bindings;
  }

  /** The propagation pass of `_check_function`: exactly the names reachable from the seeds. */
  method Propagate(bindings: seq<Binding>, seeds: set<string>) returns (tracked: set<string>)
    ensures LeastClosed(bindings, seeds, tracked)
    ensures forall x :: x in tracked <==> Reachable(bindings, seeds, x)
  {
    hide Reachable, LeastClosed;
    tracked := seeds;
    SeedsAreReached(bindings, seeds);
    var changed := true;
    while changed
      invariant seeds <= tracked <= seeds + AllBinds(bindings) && Reached(bindings, seeds, tracked)
      invariant !changed ==> Closed(bindings, tracked)
      decreases seeds + AllBinds(bindings) - tracked, changed
    {
      tracked, changed := Sweep(bindings, seeds, tracked);
    }
    ReachedIsLeast(bindings, seeds, tracked);
  }

  /** The result does not depend on the order, or the number, of visits to the assignments. */
  lemma OrderDoesNotMatter(a: seq<Binding>, b: seq<Binding>, seeds: set<string>, s: set<string>, t: set<string>)
    requires forall x :: x in a <==> x in b
    requires LeastClosed(a, seeds, s) && LeastClosed(b, seeds, t)
    ensures s == t
  {
    assert Closed(a, t) && Closed(b, s);
    assert s <= t && t <= s;
  }
}
