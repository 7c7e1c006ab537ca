/**
 * Directed graphs given by each node's ordered successor list (for the CSG graph: an operator's
 * inputs), with walks, reachability and cycles.  These are the value-level facts the cycle
 * checker's depth-first search is proved against.
 */
module Graphs {

  type Graph<T> = map<T, seq<T>>

  /** Every successor of a node of the graph is itself a node of the graph. */
  ghost predicate Closed<T>(g: Graph<T>) {
    forall n, i :: n in g && 0 <= i < |g[n]| ==> g[n][i] in g
  }

  predicate Edge<T(==)>(g: Graph<T>, a: T, b: T) {
    a in g && b in g[a]
  }

  /** A non-empty walk along edges between nodes of the graph. */
  ghost predicate IsPath<T>(g: Graph<T>, older p: seq<T>) {
    |p| > 0 && (forall i :: 0 <= i < |p| ==> p[i] in g) &&
    forall i :: 0 <= i < |p| - 1 ==> Edge(g, p[i], p[i + 1])
  }

  /** `b` can be reached from `a` (in zero or more steps). */
  ghost predicate Reaches<T>(g: Graph<T>, a: T, b: T) {
    exists p :: IsPath(g, p) && p[0] == a && p[|p| - 1] == b
  }

  /** Some walk from `root` comes back to a node it has already passed. */
  ghost predicate CycleFrom<T>(g: Graph<T>, root: T) {
    exists p, j :: IsPath(g, p) && p[0] == root && 0 <= j < |p| - 1 && p[j] == p[|p| - 1]
  }

  /** No walk of one step or more ends where it started. */
  ghost predicate Acyclic<T>(g: Graph<T>) {
    forall p :: IsPath(g, p) && |p| > 1 ==> p[0] != p[|p| - 1]
  }

  /**
   * `done` is closed under successors and `rank` strictly decreases along every edge out of
   * it: the finishing order of a depth-first search that met no back edge.
   */
  ghost predicate Ranked<T>(g: Graph<T>, done: set<T>, rank: map<T, nat>) {
    done <= rank.Keys &&
    forall n :: n in done ==> n in g && forall s :: s in g[n] ==> s in done && rank[s] < rank[n]
  }

  lemma {:induction false} PathDescends<T>(g: Graph<T>, done: set<T>, rank: map<T, nat>, p: seq<T>)
    requires Ranked(g, done, rank) && IsPath(g, p) && p[0] in done
    ensures forall i :: 0 <= i < |p| ==> p[i] in done
    ensures forall i, j :: 0 <= i < j < |p| ==> rank[p[j]] < rank[p[i]]
    decreases |p|
  {
    if |p| > 1 {
      var q := p[1..];
      assert Edge(g, p[0], p[1]);
      assert IsPath(g, q) by {
        forall i | 0 <= i < |q| - 1
          ensures Edge(g, q[i], q[i + 1])
        {
          assert Edge(g, p[i + 1], p[i + 2]);
        }
      }
      PathDescends(g, done, rank, q);
      forall i, j | 0 <= i < j < |p|
        ensures rank[p[j]] < rank[p[i]]
      {
        if i > 0 {
          assert p[i] == q[i - 1] && p[j] == q[j - 1];
        } else if j > 1 {
          assert rank[q[j - 1]] < rank[q[0]];
        }
      }
    }
  }

  /** No cycle is reachable from inside a ranked, successor-closed set. */
  lemma RankedNoCycle<T>(g: Graph<T>, done: set<T>, rank: map<T, nat>, root: T)
    requires Ranked(g, done, rank) && root in done
    ensures !CycleFrom(g, root)
  {
    if p, j :| IsPath(g, p) && p[0] == root && 0 <= j < |p| - 1 && p[j] == p[|p| - 1] {
      PathDescends(g, done, rank, p);
      assert false;
    }
  }

  /**
   * A walk from `root` to `last` (the search's stack) together with an edge from `last` back
   * into the walk is a cycle reachable from `root`.
   */
  lemma BackEdgeCycle<T>(g: Graph<T>, root: T, stack: seq<T>, u: T)
    requires IsPath(g, stack) && stack[0] == root
    requires u in stack && Edge(g, stack[|stack| - 1], u)
    ensures CycleFrom(g, root)
  {
    var p := stack + [u];
    var j :| 0 <= j < |stack| && stack[j] == u;
    assert IsPath(g, p) by {
      forall i | 0 <= i < |p| - 1
        ensures Edge(g, p[i], p[i + 1])
      {
        if i < |stack| - 1 {
          assert p[i] == stack[i] && p[i + 1] == stack[i + 1];
        }
      }
    }
    assert p[0] == root && p[j] == p[|p| - 1];
  }

  /** Appending a node reached by an edge from the last node extends a walk. */
  lemma PathSnoc<T>(g: Graph<T>, p: seq<T>, x: T)
    requires IsPath(g, p) && Edge(g, p[|p| - 1], x) && x in g
    ensures IsPath(g, p + [x])
  {
    var q := p + [x];
    forall i | 0 <= i < |q| - 1
      ensures Edge(g, q[i], q[i + 1])
    {
      if i < |p| - 1 {
        assert q[i] == p[i] && q[i + 1] == p[i + 1];
      }
    }
  }

  /** Two walks that meet join into one. */
  lemma PathJoin<T>(g: Graph<T>, p: seq<T>, q: seq<T>)
    requires IsPath(g, p) && IsPath(g, q) && p[|p| - 1] == q[0]
    ensures IsPath(g, p + q[1..]) && (p + q[1..])[0] == p[0]
    ensures (p + q[1..])[|p + q[1..]| - 1] == q[|q| - 1]
  {
    var r := p + q[1..];
    forall i | 0 <= i < |r| - 1
      ensures Edge(g, r[i], r[i + 1])
    {
      if i < |p| - 1 {
        assert r[i] == p[i] && r[i + 1] == p[i + 1];
      } else {
        assert r[i] == q[i - |p| + 1] && r[i + 1] == q[i - |p| + 2];
      }
    }
  }

  /** The graph with one more successor `n` appended to `root`'s list. */
  function AddEdge<T>(g: Graph<T>, root: T, n: T): Graph<T>
    requires root in g
  {
    g[root := g[root] + [n]]
  }

  /** Every edge of the original graph is an edge of the extended one. */
  lemma AddEdgeKeeps<T>(g: Graph<T>, root: T, n: T, p: seq<T>)
    requires root in g && IsPath(g, p)
    ensures IsPath(AddEdge(g, root, n), p)
  {
    var h := AddEdge(g, root, n);
    forall i | 0 <= i < |p| - 1
      ensures Edge(h, p[i], p[i + 1])
    {
      assert Edge(g, p[i], p[i + 1]);
      if p[i] == root {
        assert h[root] == g[root] + [n];
      }
    }
  }

  /** A walk in the extended graph that never leaves `root` before its end is a walk of `g`. */
  lemma {:induction false} AvoidingRootIsOld<T>(g: Graph<T>, root: T, n: T, p: seq<T>)
    requires root in g && IsPath(AddEdge(g, root, n), p)
    requires forall i :: 0 <= i < |p| - 1 ==> p[i] != root
    ensures IsPath(g, p)
  {
    var h := AddEdge(g, root, n);
    forall i | 0 <= i < |p| - 1
      ensures Edge(g, p[i], p[i + 1])
    {
      assert Edge(h, p[i], p[i + 1]);
    }
  }

  /** The first position from which the walk is at `root`, if any. */
  function FirstAt<T(==)>(p: seq<T>, root: T): (k: nat)
    ensures k <= |p|
    ensures forall i :: 0 <= i < k ==> p[i] != root
    ensures k < |p| ==> p[k] == root
    decreases |p|
  {
    if |p| == 0 then 0 else if p[0] == root then 0 else 1 + FirstAt(p[1..], root)
  }

  /**
   * A cycle of the extended graph either already was one of `g`, or passes the new edge; in
   * the second case `root` can be reached from `n` in `g`.
   */
  lemma {:induction false} CycleUsesNewEdge<T>(g: Graph<T>, root: T, n: T, c: seq<T>)
    requires root in g && Acyclic(g)
    requires IsPath(AddEdge(g, root, n), c) && |c| > 1 && c[0] == c[|c| - 1]
    ensures Reaches(g, n, root)
  {
    var h := AddEdge(g, root, n);
    var L := |c| - 1;
    // the walk from c[0] up to its first visit of root
    var k0 := FirstAt(c[..L], root);
    if k0 == L {
      AvoidingRootIsOld(g, root, n, c);
      assert false;
    }
    // the last step of the closed walk that is not an edge of g starts at root and goes to n
    var last := LastNewStep(g, root, n, c);
    assert c[last] == root && c[last + 1] == n;
    var tailWalk := c[last + 1..];
    assert IsPath(g, tailWalk) by {
      forall i | 0 <= i < |tailWalk| - 1
        ensures Edge(g, tailWalk[i], tailWalk[i + 1])
      {
        assert tailWalk[i] == c[last + 1 + i] && tailWalk[i + 1] == c[last + 2 + i];
      }
    }
    var headWalk := c[..k0 + 1];
    assert IsPath(h, headWalk) by {
      forall i | 0 <= i < |headWalk| - 1
        ensures Edge(h, headWalk[i], headWalk[i + 1])
      {
        assert headWalk[i] == c[i] && headWalk[i + 1] == c[i + 1];
      }
    }
    assert forall i :: 0 <= i < |headWalk| - 1 ==> headWalk[i] == c[..L][i];
    AvoidingRootIsOld(g, root, n, headWalk);
    PathJoin(g, tailWalk, headWalk);
    var w := tailWalk + headWalk[1..];
    assert w[0] == n && w[|w| - 1] == root;
  }

  /** The position of the last step of a closed walk that is not an edge of `g`. */
  lemma {:induction false} LastNewStep<T>(g: Graph<T>, root: T, n: T, c: seq<T>) returns (i: nat)
    requires root in g && Acyclic(g)
    requires IsPath(AddEdge(g, root, n), c) && |c| > 1 && c[0] == c[|c| - 1]
    ensures i < |c| - 1 && c[i] == root && c[i + 1] == n
    ensures forall m :: i < m < |c| - 1 ==> Edge(g, c[m], c[m + 1])
  {
    var h := AddEdge(g, root, n);
    i := |c| - 2;
    while Edge(g, c[i], c[i + 1])
      invariant 0 <= i < |c| - 1
      invariant forall m :: i < m < |c| - 1 ==> Edge(g, c[m], c[m + 1])
      decreases i
    {
      if i == 0 {
        assert false;
      }
      i := i - 1;
    }
    assert Edge(h, c[i], c[i + 1]);
  }

  /**
   * Adding the edge root -> n to an acyclic graph creates a cycle reachable from `root` exactly
   * when `root` can already be reached from `n` (in particular when n is root).
   */
  lemma AddedEdgeCycle<T>(g: Graph<T>, root: T, n: T)
    requires root in g && Acyclic(g)
    ensures CycleFrom(AddEdge(g, root, n), root) <==> Reaches(g, n, root)
  {
    var h := AddEdge(g, root, n);
    if CycleFrom(h, root) {
      var p, j :| IsPath(h, p) && p[0] == root && 0 <= j < |p| - 1 && p[j] == p[|p| - 1];
      var c := p[j..];
      assert IsPath(h, c) by {
        forall i | 0 <= i < |c| - 1
          ensures Edge(h, c[i], c[i + 1])
        {
          assert c[i] == p[j + i] && c[i + 1] == p[j + i + 1];
        }
      }
      CycleUsesNewEdge(g, root, n, c);
    }
    if Reaches(g, n, root) {
      var q :| IsPath(g, q) && q[0] == n && q[|q| - 1] == root;
      AddEdgeKeeps(g, root, n, q);
      assert Edge(h, root, n) by {
        assert h[root] == g[root] + [n];
      }
      var p := [root] + q;
      assert IsPath(h, p) by {
        forall i | 0 <= i < |p| - 1
          ensures Edge(h, p[i], p[i + 1])
        {
          if i > 0 {
            assert p[i] == q[i - 1] && p[i + 1] == q[i];
          }
        }
      }
      assert p[0] == p[|p| - 1];
    }
  }
}
