/**
 * Reachability in a directed graph given as an adjacency map from a node id to the set of
 * its successors. Both propagation engines that work on such a map (the closed-switch
 * adjacency of the station graph and the voltage-flow graph) are specified against these
 * definitions.
 */
module Reach {

  type Graph = map<string, set<string>>

  /** The successors of `a`; a node without an entry has none. */
  function Succ(g: Graph, a: string): set<string> {
    if a in g then g[a] else {}
  }

  /** `p` is a non-empty walk of `g`: each element is a successor of the one before it. */
  ghost predicate IsPath(g: Graph, p: seq<string>) {
    |p| > 0 && forall i :: 0 <= i < |p| - 1 ==> p[i + 1] in Succ(g, p[i])
  }

  /** `b` can be reached from `a` by a walk of zero or more steps. */
  ghost predicate Reachable(g: Graph, a: string, b: string) {
    exists p :: IsPath(g, p) && p[0] == a && p[|p| - 1] == b
  }

  /** Every successor of a member of `s` is a member of `s`. */
  ghost predicate ClosedUnder(g: Graph, s: set<string>) {
    forall a, b :: a in s && b in Succ(g, a) ==> b in s
  }

  lemma ReachableRefl(g: Graph, a: string)
    ensures Reachable(g, a, a)
  {
    assert IsPath(g, [a]);
  }

  /** A walk followed by one more step is a walk. */
  lemma ExtendPath(g: Graph, p: seq<string>, b: string)
    requires IsPath(g, p) && b in Succ(g, p[|p| - 1])
    ensures IsPath(g, p + [b]) && (p + [b])[0] == p[0] && (p + [b])[|p|] == b
  {
    var q := p + [b];
    forall i | 0 <= i < |q| - 1
      ensures q[i + 1] in Succ(g, q[i])
    {
      if i < |p| - 1 {
        assert q[i] == p[i] && q[i + 1] == p[i + 1];
      }
    }
  }

  /** Reachability extends by one edge. */
  lemma ReachableStep(g: Graph, a: string, c: string, b: string)
    requires Reachable(g, a, c) && b in Succ(g, c)
    ensures Reachable(g, a, b)
  {
    var p :| IsPath(g, p) && p[0] == a && p[|p| - 1] == c;
    ExtendPath(g, p, b);
    assert (p + [b])[|p + [b]| - 1] == b;
  }

  /** A walk that starts inside a closed set never leaves it. */
  lemma {:induction false} PathStaysInClosed(g: Graph, s: set<string>, p: seq<string>)
    requires IsPath(g, p) && p[0] in s && ClosedUnder(g, s)
    ensures p[|p| - 1] in s
  {
    if |p| > 1 {
      assert p[1] in Succ(g, p[0]);
      var q := p[1..];
      forall i | 0 <= i < |q| - 1
        ensures q[i + 1] in Succ(g, q[i])
      {
        assert q[i] == p[i + 1] && q[i + 1] == p[i + 2];
      }
      PathStaysInClosed(g, s, q);
    }
  }

  /** Everything reachable from a member of a closed set belongs to it. */
  lemma ClosedContainsReachable(g: Graph, s: set<string>, a: string, b: string)
    requires a in s && ClosedUnder(g, s) && Reachable(g, a, b)
    ensures b in s
  {
    var p :| IsPath(g, p) && p[0] == a && p[|p| - 1] == b;
    PathStaysInClosed(g, s, p);
  }

  /**
   * A node reached from `a` other than `a` itself has a predecessor that is reached from `a`:
   * reachability is the least relation closed under the edges.
   */
  lemma ReachableHasPredecessor(g: Graph, a: string, b: string)
    requires Reachable(g, a, b) && b != a
    ensures exists c :: Reachable(g, a, c) && b in Succ(g, c)
  {
    var p :| IsPath(g, p) && p[0] == a && p[|p| - 1] == b;
    var n := |p|;
    assert n > 1;
    var q := p[..n - 1];
    forall i | 0 <= i < |q| - 1
      ensures q[i + 1] in Succ(g, q[i])
    {
      assert q[i] == p[i] && q[i + 1] == p[i + 1];
    }
    assert q[0] == a && q[|q| - 1] == p[n - 2];
    assert b in Succ(g, p[n - 2]);
  }

  /** Reachability is transitive. */
  lemma ReachableTrans(g: Graph, a: string, b: string, c: string)
    requires Reachable(g, a, b) && Reachable(g, b, c)
    ensures Reachable(g, a, c)
  {
    var p :| IsPath(g, p) && p[0] == a && p[|p| - 1] == b;
    var q :| IsPath(g, q) && q[0] == b && q[|q| - 1] == c;
    var r := p + q[1..];
    forall i | 0 <= i < |r| - 1
      ensures r[i + 1] in Succ(g, r[i])
    {
      if i < |p| - 1 {
        assert r[i] == p[i] && r[i + 1] == p[i + 1];
      } else {
        assert r[i] == q[i - |p| + 1] && r[i + 1] == q[i - |p| + 2];
      }
    }
    assert IsPath(g, r) && r[0] == a && r[|r| - 1] == c;
  }

  /** No id occurs twice in `q`. */
  predicate Distinct(q: seq<string>) {
    forall a, b :: 0 <= a < b < |q| ==> q[a] != q[b]
  }

  /**
   * Visiting one more id of `u` leaves fewer of its ids unvisited: the measure that makes
   * every queue-driven traversal here terminate.
   */
  lemma FewerUnvisited(u: set<string>, a: set<string>, x: string)
    requires x in u && x !in a
    ensures |u - (a + {x})| < |u - a|
  {
    assert u - (a + {x}) == (u - a) - {x};
  }

  /**
   * Queue bookkeeping of a breadth-first traversal: the queue `q` holds, each once, the visited
   * nodes `vn` that are neither done nor the node `cur` being expanded.
   */
  ghost predicate Frontier(vn: set<string>, done: set<string>, cur: string, q: seq<string>) {
    && (forall n :: n in vn <==> n in done || n == cur || n in q)
    && cur !in done && cur !in q && (forall n :: n in done ==> n !in q) && Distinct(q)
  }

  /** Enqueueing a newly visited node keeps the Frontier. */
  lemma FrontierPush(vn: set<string>, done: set<string>, cur: string, q: seq<string>, x: string)
    requires Frontier(vn, done, cur, q) && x !in vn
    ensures Frontier(vn + {x}, done, cur, q + [x])
  {
  }
}
