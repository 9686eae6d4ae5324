/** The worklist that decides which Python packages are required. */
module Reachability {
  type Graph = map<string, set<string>>

  /** Every named dependency is itself a package of the lock file. */
  predicate Resolved(g: Graph) { forall n | n in g :: g[n] <= g.Keys }

  /** A chain of dependencies. */
  predicate Chain(g: Graph, p: seq<string>) {
    p != [] && forall i | 0 <= i < |p| - 1 :: p[i] in g && p[i + 1] in g[p[i]]
  }

  ghost predicate ReachableFrom(g: Graph, roots: seq<string>, n: string) {
    exists p :: Chain(g, p) && p[0] in roots && p[|p| - 1] == n
  }

  /** Contains the roots and whatever its members depend on. */
  predicate ClosedUnder(g: Graph, roots: seq<string>, s: set<string>) {
    (forall r | r in roots :: r in s) && forall n | n in s :: n in g && g[n] <= s
  }

  lemma {:induction false} ChainStaysInside(g: Graph, roots: seq<string>, s: set<string>, p: seq<string>)
    requires ClosedUnder(g, roots, s) && Chain(g, p) && p[0] in roots
    ensures p[|p| - 1] in s
  {
    if |p| > 1 {
      var init := p[..|p| - 1];
      ChainStaysInside(g, roots, s, init);
      assert init[|init| - 1] == p[|p| - 2];
    }
  }

  /** What chains from the roots reach is the least closed set. */
  lemma ReachableIsLeast(g: Graph, roots: seq<string>, reached: set<string>)
    requires forall n :: n in reached <==> ReachableFrom(g, roots, n)
    ensures forall s | ClosedUnder(g, roots, s) :: reached <= s
  {
    forall s, n | ClosedUnder(g, roots, s) && n in reached ensures n in s {
      var p :| Chain(g, p) && p[0] in roots && p[|p| - 1] == n;
      ChainStaysInside(g, roots, s, p);
    }
  }

  lemma OneMore(g: Graph, roots: seq<string>, n: string, next: string)
    requires ReachableFrom(g, roots, n) && n in g && next in g[n]
    ensures ReachableFrom(g, roots, next)
  {
    var p :| Chain(g, p) && p[0] in roots && p[|p| - 1] == n;
    assert Chain(g, p + [next]);
  }

  lemma RootsReachable(g: Graph, roots: seq<string>)
    ensures forall r | r in roots :: ReachableFrom(g, roots, r)
  {
    forall r | r in roots ensures ReachableFrom(g, roots, r) { assert Chain(g, [r]); }
  }

  /** `sorted(...)` of a set, as far as its consumers can tell: each member once. */
  method Enumerate<T(==)>(s: set<T>) returns (l: seq<T>)
    ensures forall x :: x in l <==> x in s
    ensures |l| == |s| && forall i, j :: 0 <= i < j < |l| ==> l[i] != l[j]
  {
    l := [];
    var rest := s;
    while rest != {}
      invariant rest <= s && (forall x :: x in l <==> x in s && x !in rest) && |l| + |rest| == |s|
      invariant forall i, j :: 0 <= i < j < |l| ==> l[i] != l[j]
      decreases rest
    {
      var x :| x in rest;
      l, rest := l + [x], rest - {x};
    }
  }

  function Members(queue: seq<string>): set<string> { set q | q in queue }

  /** Everything seen is reachable, and whatever is still missing is queued. */
  ghost predicate Underway(g: Graph, roots: seq<string>, reached: set<string>, queued: set<string>) {
    && reached + queued <= g.Keys
    && (forall n | n in reached + queued :: ReachableFrom(g, roots, n))
    && Members(roots) <= reached + queued
    && forall n | n in reached :: g[n] <= reached + queued
  }

  lemma Dequeued(queue: seq<string>)
    requires queue != []
    ensures Members(queue) == {queue[0]} + Members(queue[1..])
  {
    assert queue == [queue[0]] + queue[1..];
  }

  lemma NewlySeen(g: Graph, roots: seq<string>, reached: set<string>, queued: set<string>, current: string)
    requires Resolved(g) && Underway(g, roots, reached, queued + {current})
    ensures Underway(g, roots, reached + {current}, queued + (g[current] - (reached + {current})))
  {
    assert current in reached + (queued + {current});
    assert (reached + {current}) + queued == reached + (queued + {current});
    forall m | m in g[current] ensures ReachableFrom(g, roots, m) { OneMore(g, roots, current, m); }
  }

  lemma SeenAgain(g: Graph, roots: seq<string>, reached: set<string>, queue: seq<string>)
    requires queue != [] && queue[0] in reached && Underway(g, roots, reached, Members(queue))
    ensures Underway(g, roots, reached, Members(queue[1..]))
  {
    Dequeued(queue);
    assert reached + Members(queue) == reached + Members(queue[1..]);
  }

  lemma SeenFirst(g: Graph, roots: seq<string>, reached: set<string>, queue: seq<string>, unseen: seq<string>)
    requires Resolved(g) && queue != [] && queue[0] in g && Underway(g, roots, reached, Members(queue))
    requires forall m :: m in unseen <==> m in g[queue[0]] - (reached + {queue[0]})
    ensures Underway(g, roots, reached + {queue[0]}, Members(queue[1..] + unseen))
  {
    var current, rest := queue[0], queue[1..];
    Dequeued(queue);
    assert Members(queue) == Members(rest) + {current};
    NewlySeen(g, roots, reached, Members(rest), current);
    assert Members(rest + unseen) == Members(rest) + (g[current] - (reached + {current}));
  }

  lemma Started(g: Graph, roots: seq<string>)
    requires Resolved(g) && forall r | r in roots :: r in g
    ensures Underway(g, roots, {}, Members(roots))
  {
    RootsReachable(g, roots);
  }

  lemma Shrinks(keys: set<string>, reached: set<string>, current: string)
    requires current in keys && current !in reached
    ensures |keys - (reached + {current})| < |keys - reached|
  {
    assert keys - (reached + {current}) == (keys - reached) - {current};
  }

  lemma Emptied(g: Graph, roots: seq<string>, reached: set<string>)
    requires Underway(g, roots, reached, {})
    ensures ClosedUnder(g, roots, reached)
    ensures forall n :: n in reached <==> ReachableFrom(g, roots, n)
  {
    assert forall r | r in roots :: r in Members(roots);
    forall n | ReachableFrom(g, roots, n) ensures n in reached {
      var p :| Chain(g, p) && p[0] in roots && p[|p| - 1] == n;
      ChainStaysInside(g, roots, reached, p);
    }
  }

  method RequiredReachable(g: Graph, roots: seq<string>) returns (reached: set<string>)
    requires Resolved(g) && forall r | r in roots :: r in g
    ensures forall n :: n in reached <==> ReachableFrom(g, roots, n)
    ensures ClosedUnder(g, roots, reached)
  {
    reached := {};
    var queue := roots;
    Started(g, roots);
    while queue != []
      invariant Underway(g, roots, reached, Members(queue))
      decreases |g.Keys - reached|, |queue|
    {
      var current, rest := queue[0], queue[1..];
      if current in reached {
        SeenAgain(g, roots, reached, queue);
        queue := rest;
        continue;
      }
      assert current in Members(queue);
      Shrinks(g.Keys, reached, current);
      var seen := reached + {current};
      var unseen := Enumerate(g[current] - seen);
      SeenFirst(g, roots, reached, queue, unseen);
      reached, queue := seen, rest + unseen;
    }
    assert Members([]) == {};
    Emptied(g, roots, reached);
  }
}
