/**
 * The CSG graph as the visitors see it: a tree of nodes, each with a key standing for the
 * node's identity (its handle in the graph), the transform settings of Node.h and, for an
 * operator, its ordered inputs.
 */
module Trees {
  import opened Operators
  import opened Nodes

  /** A node of the CSG tree with the settings the generator reads. */
  datatype Csg =
    | Prim(key: nat, translate: Vec3, rotate: Vec3, scale: Scalar, radius: Scalar, shape: Primitive)
    | Op(key: nat, translate: Vec3, rotate: Vec3, scale: Scalar, radius: Scalar,
         description: Operator, inputs: seq<Csg>)

  /** The keys of the nodes of a tree. */
  function Keys(t: Csg): set<nat>
    decreases t, 1
  {
    match t
    case Prim(_, _, _, _, _, _) => {t.key}
    case Op(_, _, _, _, _, _, inputs) => {t.key} + KeysOf(inputs)
  }

  function KeysOf(ts: seq<Csg>): set<nat>
    decreases ts, 0
  {
    if ts == [] then {} else KeysOf(ts[..|ts| - 1]) + Keys(ts[|ts| - 1])
  }

  /** No two nodes of the tree share a key: the graph is a tree and keys stand for nodes. */
  predicate Unique(t: Csg)
    decreases t, 1
  {
    match t
    case Prim(_, _, _, _, _, _) => true
    case Op(_, _, _, _, _, _, inputs) => t.key !in KeysOf(inputs) && UniqueAll(inputs)
  }

  predicate UniqueAll(ts: seq<Csg>)
    decreases ts, 0
  {
    ts == [] ||
    (UniqueAll(ts[..|ts| - 1]) && Unique(ts[|ts| - 1]) && KeysOf(ts[..|ts| - 1]) !! Keys(ts[|ts| - 1]))
  }

  /** A tree's keys are the root's and its inputs'. */
  lemma {:induction false} KeysOfMember(ts: seq<Csg>, k: nat)
    ensures k in KeysOf(ts) <==> exists i :: 0 <= i < |ts| && k in Keys(ts[i])
    decreases |ts|
  {
    if ts != [] {
      var n := |ts| - 1;
      KeysOfMember(ts[..n], k);
      if k in KeysOf(ts[..n]) {
        var i :| 0 <= i < n && k in Keys(ts[..n][i]);
        assert k in Keys(ts[i]);
      }
      if i :| 0 <= i < |ts| && k in Keys(ts[i]) {
        if i < n {
          assert k in Keys(ts[..n][i]);
        }
      }
    }
  }

  /** With unique keys, the subtrees of different inputs share no key. */
  lemma {:induction false} UniqueApart(ts: seq<Csg>)
    requires UniqueAll(ts)
    ensures forall i :: 0 <= i < |ts| ==> Unique(ts[i])
    ensures forall i, j :: 0 <= i < j < |ts| ==> Keys(ts[i]) !! Keys(ts[j])
    decreases |ts|
  {
    if ts != [] {
      var n := |ts| - 1;
      UniqueApart(ts[..n]);
      forall i, j | 0 <= i < j < |ts|
        ensures Keys(ts[i]) !! Keys(ts[j])
      {
        if j == n {
          forall k | k in Keys(ts[i])
            ensures k in KeysOf(ts[..n])
          {
            KeysOfMember(ts[..n], k);
            assert ts[..n][i] == ts[i];
          }
        } else {
          assert ts[..n][i] == ts[i] && ts[..n][j] == ts[j];
        }
      }
      forall i | 0 <= i < |ts|
        ensures Unique(ts[i])
      {
        if i < n {
          assert ts[..n][i] == ts[i];
        }
      }
    }
  }

  /** Every node's key belongs to its own subtree. */
  lemma KeyOwn(t: Csg)
    ensures t.key in Keys(t)
  {
  }
}
