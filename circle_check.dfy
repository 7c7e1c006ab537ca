/**
 * The cycle check of the editor (CircleCheck.cpp): a depth-first search over the operator
 * nodes' input lists that marks each node in its `flag` field, reports whether it met a node
 * that is still being expanded, and resets every flag it set before returning.
 *
 * The search is proved against the graph of input lists taken as a value (`Graphs`): it
 * answers true exactly when a cycle can be reached from the root.
 */
module CircleCheck {
  import opened Nodes
  import opened Graphs

  const Unvisited := 0
  const Entered := 1
  const Returned := 2

  /** `g` records the input list of every node it holds, and is closed under inputs. */
  ghost predicate Snapshot(g: Graph<Node>)
    reads g.Keys`inputs
  {
    Closed(g) && forall n :: n in g ==> n.inputs == g[n] && n.Valid()
  }

  ghost predicate AllUnvisited(g: Graph<Node>)
    reads g.Keys`flag
  {
    forall n :: n in g ==> n.flag == Unvisited
  }

  ghost function UnvisitedOf(flags: map<Node, int>): set<Node> {
    set n | n in flags && flags[n] == Unvisited
  }

  ghost function ReturnedOf(flags: map<Node, int>): set<Node> {
    set n | n in flags && flags[n] == Returned
  }

  lemma {:induction false} SubsetSmaller<T>(a: set<T>, b: set<T>, x: T)
    requires a <= b - {x} && x in b
    ensures |a| < |b|
    decreases |a|
  {
    if a != {} {
      var y :| y in a;
      SubsetSmaller(a - {y}, b - {y}, x);
    }
  }

  /** Between two states of a search no flag goes back: visited stays visited, Returned stays Returned. */
  ghost predicate Grows(f0: map<Node, int>, f1: map<Node, int>) {
    forall n :: n in f0 ==>
      n in f1 && (f0[n] == Returned ==> f1[n] == Returned) && (f0[n] != Unvisited ==> f1[n] != Unvisited)
  }

  lemma GrowsUnvisited(f0: map<Node, int>, f1: map<Node, int>)
    requires Grows(f0, f1) && f1.Keys <= f0.Keys
    ensures UnvisitedOf(f1) <= UnvisitedOf(f0)
  {
  }

  /**
   * The state of a search taken as a value: the flags, the operators being expanded (from the
   * root down), the nodes recorded for clean-up, whether a cycle was reported, and the order in
   * which expanded operators returned (primitives rank 0).
   */
  datatype Search = Search(
    flags: map<Node, int>, stack: seq<Node>, affected: seq<Node>, found: bool,
    rank: map<Node, nat>, clock: nat)

  /** Flags are Unvisited, Entered or Returned, and only operators are ever Entered. */
  ghost predicate FlagsOk(g: Graph<Node>, s: Search) {
    s.flags.Keys == g.Keys &&
    forall n :: n in s.flags ==>
      (s.flags[n] == Unvisited || s.flags[n] == Entered || s.flags[n] == Returned) &&
      (s.flags[n] == Entered ==> n.isOperator)
  }

  /** The Entered nodes are the stack: a walk of distinct operators from the root. */
  ghost predicate StackOk(g: Graph<Node>, root: Node, s: Search) {
    (forall n :: n in s.flags ==> (s.flags[n] == Entered <==> n in s.stack)) &&
    (forall i, j :: 0 <= i < j < |s.stack| ==> s.stack[i] != s.stack[j]) &&
    (s.stack != [] ==> IsPath(g, s.stack) && s.stack[0] == root)
  }

  /** Every flagged node is recorded for clean-up. */
  ghost predicate AffectedOk(g: Graph<Node>, s: Search) {
    (forall n :: n in s.flags && s.flags[n] != Unvisited ==> n in s.affected) &&
    (forall i :: 0 <= i < |s.affected| ==> s.affected[i] in g)
  }

  /**
   * While no cycle is reported, the inputs of a Returned node have returned before it: they
   * are Returned too and ranked lower.
   */
  ghost predicate RankOk(g: Graph<Node>, s: Search) {
    !s.found ==>
      1 <= s.clock && (forall n :: n in s.rank ==> s.rank[n] < s.clock) &&
      forall n :: n in g && n in s.flags && s.flags[n] == Returned ==>
        n in s.rank && forall x :: x in g[n] ==> x in s.flags && s.flags[x] == Returned && x in s.rank && s.rank[x] < s.rank[n]
  }

  /**
   * The search invariant: the flags, the stack and the clean-up record agree; a reported cycle
   * exists; and while none is reported the Returned nodes are ranked by their return order.
   */
  ghost predicate SearchInv(g: Graph<Node>, root: Node, s: Search) {
    Closed(g) && root in g && FlagsOk(g, s) && StackOk(g, root, s) && AffectedOk(g, s) &&
    (s.found ==> CycleFrom(g, root)) && RankOk(g, s)
  }

  /** Where a visit of `n` may come from: the root itself, or an input of the top operator. */
  ghost predicate CalledOn(g: Graph<Node>, root: Node, stack: seq<Node>, n: Node) {
    n in g && (stack == [] ==> n == root) && (stack != [] ==> Edge(g, stack[|stack| - 1], n))
  }

  /** Entering an Unvisited operator keeps the invariant. */
  lemma EnterStep(g: Graph<Node>, root: Node, s: Search, u: Node, t: Search)
    requires SearchInv(g, root, s) && !s.found && CalledOn(g, root, s.stack, u)
    requires u.isOperator && s.flags[u] == Unvisited
    requires t == s.(flags := s.flags[u := Entered], stack := s.stack + [u], affected := s.affected + [u])
    ensures SearchInv(g, root, t)
  {
    if s.stack != [] {
      PathSnoc(g, s.stack, u);
    }
  }

  /** The state after the operator on top of the stack returns. */
  function Left(s: Search, u: Node): Search
    requires s.stack != []
  {
    if s.found then s.(flags := s.flags[u := Returned], stack := s.stack[..|s.stack| - 1])
    else s.(flags := s.flags[u := Returned], stack := s.stack[..|s.stack| - 1],
            rank := s.rank[u := s.clock], clock := s.clock + 1)
  }

  /**
   * An operator returns: if no cycle was reported all its inputs have returned, so it joins the
   * Returned nodes, ranked after all of them.
   */
  lemma LeaveStep(g: Graph<Node>, root: Node, s: Search, u: Node, t: Search)
    requires SearchInv(g, root, s) && s.stack != [] && s.stack[|s.stack| - 1] == u
    requires !s.found ==> AllReturned(s.flags, g[u])
    requires t == Left(s, u)
    ensures SearchInv(g, root, t)
  {
    assert u !in t.stack by {
      assert forall i :: 0 <= i < |t.stack| ==> t.stack[i] == s.stack[i];
    }
    if |t.stack| > 0 {
      assert IsPath(g, t.stack) by {
        forall i | 0 <= i < |t.stack| - 1
          ensures Edge(g, t.stack[i], t.stack[i + 1])
        {
          assert Edge(g, s.stack[i], s.stack[i + 1]);
        }
      }
    }
  }

  /** A primitive returns at once; having no inputs, it keeps the ranking. */
  lemma PrimitiveStep(g: Graph<Node>, root: Node, s: Search, p: Node, t: Search)
    requires SearchInv(g, root, s) && !s.found && p in g && !p.isOperator && g[p] == []
    requires t == s.(flags := s.flags[p := Returned], affected := s.affected + [p], rank := s.rank[p := 0])
    ensures SearchInv(g, root, t)
  {
  }

  /** Meeting an operator that is still being expanded closes a cycle. */
  lemma BackEdgeStep(g: Graph<Node>, root: Node, s: Search, u: Node, t: Search)
    requires SearchInv(g, root, s) && CalledOn(g, root, s.stack, u) && s.flags[u] == Entered
    requires t == s.(found := true)
    ensures SearchInv(g, root, t)
  {
    BackEdgeCycle(g, root, s.stack, u);
  }

  /** Every node of `xs` is Returned. */
  ghost predicate AllReturned(f: map<Node, int>, xs: seq<Node>) {
    forall k :: 0 <= k < |xs| ==> xs[k] in f && f[xs[k]] == Returned
  }

  /** Returned nodes stay Returned; one more Returned node extends the prefix. */
  lemma ReturnedSnoc(f0: map<Node, int>, f1: map<Node, int>, xs: seq<Node>, i: nat)
    requires Grows(f0, f1) && i < |xs| && AllReturned(f0, xs[..i])
    requires xs[i] in f1 && f1[xs[i]] == Returned
    ensures AllReturned(f1, xs[..i + 1])
  {
  }

  /** Setting one flag forward keeps the flags growing. */
  lemma GrowsStep(f: map<Node, int>, u: Node, v: int)
    requires u in f && (f[u] == Returned ==> v == Returned) && (f[u] != Unvisited ==> v != Unvisited)
    ensures Grows(f, f[u := v])
  {
  }

  lemma GrowsTrans(f0: map<Node, int>, f1: map<Node, int>, f2: map<Node, int>)
    requires Grows(f0, f1) && Grows(f1, f2)
    ensures Grows(f0, f2)
  {
  }

  /** Marking an Unvisited node removes it from the Unvisited nodes. */
  lemma MarkShrinks(f: map<Node, int>, u: Node, v: int)
    requires u in f && f[u] == Unvisited && v != Unvisited
    ensures u in UnvisitedOf(f) && UnvisitedOf(f[u := v]) <= UnvisitedOf(f) - {u}
  {
  }

  /** Without a reported cycle the Returned nodes are ranked. */
  lemma InvRanked(g: Graph<Node>, root: Node, s: Search)
    requires SearchInv(g, root, s) && !s.found
    ensures Ranked(g, ReturnedOf(s.flags), s.rank)
  {
  }

  class CircleCheckVisitor {
    var found: bool
    /** Every node whose flag the search has set, to be reset by Clean. */
    var affected: seq<Node>
    /** The search taken as a value; its flags mirror the nodes' flag fields. */
    ghost var st: Search

    constructor ()
      ensures !found && affected == []
    {
      found := false;
      affected := [];
      st := Search(map[], [], [], false, map[], 1);
    }

    /** The mirrored flags are the nodes' flag fields. */
    ghost predicate Mirrors(g: Graph<Node>)
      reads this, g.Keys`flag
    {
      forall n :: n in g ==> n in st.flags && n.flag == st.flags[n]
    }

    ghost predicate Inv(g: Graph<Node>, root: Node)
      reads this, g.Keys`flag, g.Keys`inputs
    {
      Snapshot(g) && Mirrors(g) && st.found == found && st.affected == affected && SearchInv(g, root, st)
    }

    /** The visit dispatch of a node: operators to the operator handler, primitives to the other. */
    method Visit(n: Node, ghost g: Graph<Node>, ghost root: Node)
      requires Inv(g, root) && CalledOn(g, root, st.stack, n) && !found
      modifies this, g.Keys`flag
      ensures Inv(g, root) && st.stack == old(st.stack) && Grows(old(st.flags), st.flags)
      ensures !found ==> st.flags[n] == Returned
      decreases |UnvisitedOf(st.flags)|, 1
    {
      if n.isOperator {
        VisitOperator(n, g, root);
      } else {
        VisitPrimitive(n, g, root);
      }
    }

    /** A primitive is marked Returned and recorded; it never reports a cycle. */
    method VisitPrimitive(p: Node, ghost g: Graph<Node>, ghost root: Node)
      requires Inv(g, root) && p in g && !p.isOperator && !found
      modifies this, p`flag
      ensures Inv(g, root) && st.stack == old(st.stack) && !found
      ensures st.flags == old(st.flags)[p := Returned] && Grows(old(st.flags), st.flags)
    {
      ghost var t := st.(flags := st.flags[p := Returned], affected := st.affected + [p], rank := st.rank[p := 0]);
      PrimitiveStep(g, root, st, p, t);
      GrowsStep(st.flags, p, Returned);
      p.flag := Returned;
      affected := affected + [p];
      st := t;
    }

    /**
     * An Unvisited operator is expanded: its inputs are visited in order until one of them
     * reports a cycle.  Meeting an Entered operator reports a cycle; a Returned one is skipped.
     */
    method VisitOperator(u: Node, ghost g: Graph<Node>, ghost root: Node)
      requires Inv(g, root) && CalledOn(g, root, st.stack, u) && u.isOperator && !found
      modifies this, g.Keys`flag
      ensures Inv(g, root) && st.stack == old(st.stack) && Grows(old(st.flags), st.flags)
      ensures !found ==> st.flags[u] == Returned
      decreases |UnvisitedOf(st.flags)|, 0
    {
      if u.flag == Unvisited {
        ghost var f0 := st.flags;
        Enter(u, g, root);
        MarkShrinks(f0, u, Entered);
        ghost var f1 := st.flags;
        VisitInputs(u, g, root, UnvisitedOf(f0));
        ghost var f2 := st.flags;
        Leave(u, g, root);
        GrowsTrans(f0, f1, f2);
        GrowsTrans(f0, f2, st.flags);
      } else if u.flag == Entered {
        ghost var t := st.(found := true);
        BackEdgeStep(g, root, st, u, t);
        found := true;
        st := t;
      }
    }

    /** Visits the inputs of an Entered operator in order, stopping once a cycle is reported. */
    method VisitInputs(u: Node, ghost g: Graph<Node>, ghost root: Node, ghost entry: set<Node>)
      requires Inv(g, root) && u in g && st.flags[u] == Entered && !found
      requires st.stack != [] && st.stack[|st.stack| - 1] == u
      requires u in entry && UnvisitedOf(st.flags) <= entry - {u}
      modifies this, g.Keys`flag
      ensures Inv(g, root) && st.stack == old(st.stack) && Grows(old(st.flags), st.flags)
      ensures st.flags[u] == Entered
      ensures !found ==> AllReturned(st.flags, g[u])
      decreases |entry| - 1, 2
    {
      var i := 0;
      while i < |u.inputs|
        invariant Inv(g, root) && st.stack == old(st.stack) && st.flags[u] == Entered && !found
        invariant 0 <= i <= |u.inputs| && u.inputs == g[u]
        invariant Grows(old(st.flags), st.flags)
        invariant AllReturned(st.flags, g[u][..i])
      {
        GrowsUnvisited(old(st.flags), st.flags);
        SubsetSmaller(UnvisitedOf(st.flags), entry, u);
        ghost var before := st.flags;
        Visit(u.inputs[i], g, root);
        GrowsTrans(old(st.flags), before, st.flags);
        if found {
          break;
        }
        ReturnedSnoc(before, st.flags, g[u], i);
        i := i + 1;
      }
      if !found {
        assert g[u][..i] == g[u];
      }
    }

    /** Marks an Unvisited operator Entered and pushes it on the stack. */
    method Enter(u: Node, ghost g: Graph<Node>, ghost root: Node)
      requires Inv(g, root) && CalledOn(g, root, st.stack, u) && u.isOperator && st.flags[u] == Unvisited && !found
      modifies this, u`flag
      ensures Inv(g, root) && st.stack == old(st.stack) + [u] && !found
      ensures st.flags == old(st.flags)[u := Entered] && Grows(old(st.flags), st.flags)
    {
      ghost var t := st.(flags := st.flags[u := Entered], stack := st.stack + [u], affected := st.affected + [u]);
      EnterStep(g, root, st, u, t);
      GrowsStep(st.flags, u, Entered);
      affected := affected + [u];
      u.flag := Entered;
      st := t;
    }

    /** Marks an expanded operator Returned and pops it. */
    method Leave(u: Node, ghost g: Graph<Node>, ghost root: Node)
      requires Inv(g, root) && u in g && st.stack != [] && st.stack[|st.stack| - 1] == u
      requires !found ==> AllReturned(st.flags, g[u])
      modifies this, u`flag
      ensures Inv(g, root) && st.stack == old(st.stack)[..|old(st.stack)| - 1] && found == old(found)
      ensures st.flags == old(st.flags)[u := Returned] && Grows(old(st.flags), st.flags)
    {
      ghost var t := Left(st, u);
      LeaveStep(g, root, st, u, t);
      GrowsStep(st.flags, u, Returned);
      u.flag := Returned;
      st := t;
    }

    /** Resets the flag of every recorded node and forgets them. */
    method Clean(ghost g: Graph<Node>)
      requires forall i :: 0 <= i < |affected| ==> affected[i] in g
      requires forall n :: n in g && n.flag != Unvisited ==> n in affected
      modifies this`affected, g.Keys`flag
      ensures AllUnvisited(g) && affected == []
    {
      var i := 0;
      while i < |affected|
        invariant 0 <= i <= |affected|
        invariant forall k :: 0 <= k < |affected| ==> affected[k] in g
        invariant forall n :: n in g && n.flag != Unvisited ==> n in affected[i..]
      {
        affected[i].flag := Unvisited;
        i := i + 1;
      }
      affected := [];
    }

    /**
     * Searches from `root` and cleans up: the answer is whether a cycle can be reached from
     * `root`, and every flag is Unvisited again.
     */
    method Check(root: Node, ghost g: Graph<Node>) returns (r: bool)
      requires Snapshot(g) && root in g && AllUnvisited(g)
      requires !found && affected == []
      modifies this, g.Keys`flag
      ensures r <==> CycleFrom(g, root)
      ensures AllUnvisited(g)
    {
      st := Search(map n | n in g :: Unvisited, [], [], false, map[], 1);
      Visit(root, g, root);
      if !found {
        InvRanked(g, root, st);
        RankedNoCycle(g, ReturnedOf(st.flags), st.rank, root);
      }
      Clean(g);
      r := found;
    }
  }

  /** Whether a cycle can be reached from `root` through input edges. */
  method CheckCircleFromNode(root: Node, ghost g: Graph<Node>) returns (r: bool)
    requires Snapshot(g) && root in g && AllUnvisited(g)
    modifies g.Keys`flag
    ensures r <==> CycleFrom(g, root)
    ensures AllUnvisited(g)
  {
    var check := new CircleCheckVisitor();
    r := check.Check(root, g);
  }

  /**
   * Whether linking `tempNeighbour` as a new input of `root` would close a cycle.  The input
   * list of `root` is restored.  On an acyclic graph the answer is whether `root` can be reached
   * from `tempNeighbour` (which includes `tempNeighbour` being `root`).
   */
  method CheckCircleFromNodeWithAddedLink(root: Node, tempNeighbour: Node, ghost g: Graph<Node>) returns (val: bool)
    requires Snapshot(g) && root in g && tempNeighbour in g && root.isOperator && AllUnvisited(g)
    modifies root`inputs, g.Keys`flag
    ensures root.inputs == old(root.inputs) && Snapshot(g) && AllUnvisited(g)
    ensures val <==> CycleFrom(AddEdge(g, root, tempNeighbour), root)
    ensures Acyclic(g) ==> (val <==> Reaches(g, tempNeighbour, root))
  {
    root.AddInputBack(tempNeighbour);
    ghost var h := AddEdge(g, root, tempNeighbour);
    assert h.Keys == g.Keys;
    assert Snapshot(h);
    val := CheckCircleFromNode(root, h);
    root.RemoveLastInput();
    assert root.inputs == g[root];
    if Acyclic(g) {
      AddedEdgeCycle(g, root, tempNeighbour);
    }
  }
}
