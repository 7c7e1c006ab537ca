/**
 * What the scalar generator's register discipline guarantees (SDFGenerator.cpp).  A register
 * is live while it is below the counter and not waiting in the free list.  Visiting a node of
 * a tree with distinct keys makes exactly one more register live, a register that was not live
 * before, and leaves it as the node's traversal id; every other node of the subtree is
 * unassigned again.  So a register holding an input's distance is never handed out while that
 * input is still waiting for its operator, each register is declared once, and a whole
 * generation ends with the root's register as the only live one.
 */
module SdfRegisters {
  import opened Wrappers
  import opened Operators
  import opened Trees
  import opened SdfGen

  /** Every operator of the tree has inputs, and every smooth operator exactly two. */
  predicate WellFormed(t: Csg)
    decreases t, 1
  {
    match t
    case Prim(_, _, _, _, _, _) => true
    case Op(_, _, _, _, _, _, inputs) =>
      |inputs| > 0 && (t.description.IsSmooth() ==> |inputs| == 2) && AllWellFormed(inputs)
  }

  predicate AllWellFormed(ts: seq<Csg>)
    decreases ts, 0
  {
    ts == [] || (AllWellFormed(ts[..|ts| - 1]) && WellFormed(ts[|ts| - 1]))
  }

  /** Registers holding a value: below the counter and not waiting for reuse. */
  ghost function Live(g: Gen): set<int> {
    set r | 0 <= r < g.next && r !in g.free
  }

  predicate Distinct(s: seq<int>) {
    forall i, j :: 0 <= i < j < |s| ==> s[i] != s[j]
  }

  /**
   * The allocator's invariant: every register below the counter has been declared, and the
   * free list holds distinct registers below the counter.
   */
  predicate Ok(g: Gen) {
    0 <= g.next && g.count == g.next && Distinct(g.free) &&
    forall i :: 0 <= i < |g.free| ==> 0 <= g.free[i] < g.next
  }

  /** The traversal ids of the nodes `ts`, in order. */
  function Tops(ts: seq<Csg>, ids: map<nat, int>): (rs: seq<int>)
    ensures |rs| == |ts|
    ensures forall i :: 0 <= i < |ts| ==> rs[i] == Id(ids, ts[i].key)
  {
    seq(|ts|, i requires 0 <= i < |ts| => Id(ids, ts[i].key))
  }

  function TopKeys(ts: seq<Csg>): set<nat> {
    set i | 0 <= i < |ts| :: ts[i].key
  }

  /** A freed register is the next one handed out, and the rest of the state is as before. */
  lemma FreeThenAllocate(g: Gen, x: int)
    ensures Allocate(g.(free := g.free + [x])) == (x, g)
  {
    assert (g.free + [x])[..|g.free|] == g.free;
  }

  /**
   * Under the invariant the allocated register was not live, is live afterwards, and is the
   * counter (so it gets declared) exactly when the free list is empty.
   */
  lemma AllocateLive(g: Gen)
    requires Ok(g)
    ensures var (r, g1) := Allocate(g);
      r !in Live(g) && 0 <= r < g1.next && Live(g1) == Live(g) + {r} &&
      g1.count == g.count && g1.ids == g.ids && Distinct(g1.free) &&
      (forall i :: 0 <= i < |g1.free| ==> 0 <= g1.free[i] < g1.next) &&
      (r == g.count <==> g.free == []) && (g.free == [] ==> g1.next == g.next + 1) &&
      (g.free != [] ==> g1.next == g.next)
  {
    var (r, g1) := Allocate(g);
    if |g.free| > 0 {
      var n := |g.free| - 1;
      assert g.free == g1.free + [r];
      forall x | x in Live(g1)
        ensures x in Live(g) + {r}
      {
        if x != r {
          assert x !in g.free;
        }
      }
      assert r in g.free;
    }
  }

  /** A primitive's visit makes its register, which was not live, the one more live register. */
  lemma {:induction false} PrimitiveLive(p: Csg, g: Gen, e: Env)
    requires p.Prim? && |g.stack| > 0 && Ok(g)
    ensures var h := EmitPrimitive(p, g, e); var r := Id(h.ids, p.key);
      Ok(h) && r !in Live(g) && Live(h) == Live(g) + {r} && h.ids == g.ids[p.key := r] &&
      (h.count == g.count + 1 <==> g.free == [])
  {
    AllocateLive(g);
    var (r, g1) := Allocate(g);
    var h := EmitPrimitive(p, g, e);
    assert h.next == g1.next && h.free == g1.free && h.ids == g.ids[p.key := r];
    assert Live(h) == Live(g1);
  }

  /** Freeing the registers of `ins` in order: the free list grows by their ids, which are reset. */
  lemma {:induction false} FreeInputsEffect(g: Gen, ins: seq<Csg>)
    requires forall i, j :: 0 <= i < j < |ins| ==> ins[i].key != ins[j].key
    ensures FreeInputs(g, ins).free == g.free + Tops(ins, g.ids)
    ensures forall k :: Id(FreeInputs(g, ins).ids, k) == if k in TopKeys(ins) then NotAssigned else Id(g.ids, k)
    decreases |ins|
  {
    if ins != [] {
      var n := |ins| - 1;
      var front := ins[..n];
      FreeInputsEffect(g, front);
      var h := FreeInputs(g, front);
      assert ins[n].key !in TopKeys(front);
      assert Tops(ins, g.ids) == Tops(front, g.ids) + [Id(g.ids, ins[n].key)];
      assert TopKeys(ins) == TopKeys(front) + {ins[n].key} by {
        forall k | k in TopKeys(ins)
          ensures k in TopKeys(front) + {ins[n].key}
        {
          var i :| 0 <= i < |ins| && ins[i].key == k;
          if i < n {
            assert front[i].key == k;
          }
        }
      }
    }
  }

  /** Handing back distinct live registers keeps the invariant and makes exactly them not live. */
  lemma FreeLive(g: Gen, h: Gen, rs: seq<int>)
    requires Ok(g) && h.next == g.next && h.count == g.count && h.free == g.free + rs
    requires Distinct(rs) && forall i :: 0 <= i < |rs| ==> rs[i] in Live(g)
    ensures Ok(h) && Live(h) == Live(g) - (set r | r in rs)
  {
    forall i, j | 0 <= i < j < |h.free|
      ensures h.free[i] != h.free[j]
    {
      if j >= |g.free| {
        assert h.free[j] == rs[j - |g.free|] && h.free[j] in Live(g);
        if i >= |g.free| {
          assert h.free[i] == rs[i - |g.free|];
        } else {
          assert h.free[i] == g.free[i];
        }
      }
    }
    forall i | 0 <= i < |h.free|
      ensures 0 <= h.free[i] < h.next
    {
      if i >= |g.free| {
        assert h.free[i] == rs[i - |g.free|] && h.free[i] in Live(g);
      }
    }
  }

  /**
   * After visiting the nodes `ts` from `g`: the invariant holds, their traversal ids are
   * distinct registers that were not live and are now live in addition to the old ones, the
   * ids of keys outside the subtrees are untouched and every other node of the subtrees is
   * unassigned.
   */
  ghost predicate InputsDone(ts: seq<Csg>, g: Gen, h: Gen) {
    var rs := Tops(ts, h.ids);
    Ok(h) && Distinct(rs) && (forall i :: 0 <= i < |rs| ==> rs[i] !in Live(g)) &&
    Live(h) == Live(g) + (set r | r in rs) &&
    (forall k :: k !in KeysOf(ts) ==> Id(h.ids, k) == Id(g.ids, k)) &&
    (forall i, k :: 0 <= i < |ts| && k in Keys(ts[i]) && k != ts[i].key ==> Id(h.ids, k) == NotAssigned)
  }

  /** The same after visiting the single node `t`. */
  ghost predicate NodeDone(t: Csg, g: Gen, h: Gen) {
    var r := Id(h.ids, t.key);
    Ok(h) && r !in Live(g) && Live(h) == Live(g) + {r} &&
    (forall k :: k !in Keys(t) ==> Id(h.ids, k) == Id(g.ids, k)) &&
    (forall k :: k in Keys(t) && k != t.key ==> Id(h.ids, k) == NotAssigned)
  }

  /** One more visited node extends the facts about the nodes before it. */
  lemma InputsStep(ts: seq<Csg>, g: Gen, h1: Gen, h: Gen)
    requires |ts| > 0 && KeysOf(ts[..|ts| - 1]) !! Keys(ts[|ts| - 1])
    requires Ok(g) && InputsDone(ts[..|ts| - 1], g, h1) && NodeDone(ts[|ts| - 1], h1, h)
    ensures InputsDone(ts, g, h)
  {
    var n := |ts| - 1;
    var front, last := ts[..n], ts[n];
    var rs1 := Tops(front, h1.ids);
    var r := Id(h.ids, last.key);
    var rs := Tops(ts, h.ids);
    forall i | 0 <= i < n
      ensures rs[i] == rs1[i]
    {
      KeyOwn(front[i]);
      KeysOfMember(front, front[i].key);
    }
    assert rs == rs1 + [r];
    assert r !in (set x | x in rs1);
    forall i, k | 0 <= i < n && k in Keys(ts[i])
      ensures k in KeysOf(front)
    {
      assert front[i] == ts[i];
      KeysOfMember(front, k);
    }
  }

  /** Visiting the nodes `ts` from a state satisfying the invariant. */
  lemma {:induction false} EmitInputsLive(ts: seq<Csg>, g: Gen, e: Env)
    requires |g.stack| > 0 && Ok(g) && UniqueAll(ts) && EmitInputs(ts, g, e).Success?
    ensures InputsDone(ts, g, EmitInputs(ts, g, e).value)
    decreases ts, 0
  {
    if ts == [] {
      assert Live(g) + (set r | r in Tops(ts, g.ids)) == Live(g);
    } else {
      var n := |ts| - 1;
      EmitInputsLive(ts[..n], g, e);
      var h1 := EmitInputs(ts[..n], g, e).value;
      EmitLive(ts[n], h1, e);
      InputsStep(ts, g, h1, EmitInputs(ts, g, e).value);
    }
  }

  /** Visiting the node `t` from a state satisfying the invariant. */
  lemma {:induction false} EmitLive(t: Csg, g: Gen, e: Env)
    requires |g.stack| > 0 && Ok(g) && Unique(t) && Emit(t, g, e).Success?
    ensures NodeDone(t, g, Emit(t, g, e).value)
    decreases t, 1
  {
    if t.Prim? {
      PrimitiveLive(t, g, e);
    } else {
      var g0 := Push(t, g);
      EmitInputsLive(t.inputs, g0, e);
      var h1 := EmitInputs(t.inputs, g0, e).value;
      FinishLive(t, g, h1, e);
    }
  }

  /** The operator's own step after its inputs' visits under its pushed transform. */
  lemma FinishLive(t: Csg, g: Gen, h1: Gen, e: Env)
    requires t.Op? && |t.inputs| > 0 && |g.stack| > 0 && |h1.stack| > 0 && Unique(t)
    requires Ok(g) && InputsDone(t.inputs, Push(t, g), h1) && Finish(t, h1, e).Success?
    ensures NodeDone(t, g, Finish(t, h1, e).value)
  {
    assert Live(Push(t, g)) == Live(g);
    InputKeys(t);
    var h := Finish(t, h1, e).value;
    var g2 := Claim(t, h1.(stack := h1.stack[..|h1.stack| - 1])).(code := h.code);
    assert h == Release(t, g2);
    ReleaseFields(t, g2);
    OperatorLive(t, Push(t, g), h1, h);
  }

  /** The inputs' own keys are distinct and differ from the operator's. */
  lemma InputKeys(t: Csg)
    requires t.Op? && Unique(t)
    ensures forall i :: 0 <= i < |t.inputs| ==> t.inputs[i].key in KeysOf(t.inputs) && t.inputs[i].key != t.key
    ensures forall i, j :: 0 <= i < j < |t.inputs| ==> t.inputs[i].key != t.inputs[j].key
  {
    var ins := t.inputs;
    UniqueApart(ins);
    forall i | 0 <= i < |ins|
      ensures ins[i].key in KeysOf(ins) && ins[i].key != t.key
    {
      KeyOwn(ins[i]);
      KeysOfMember(ins, ins[i].key);
    }
    forall i, j | 0 <= i < j < |ins|
      ensures ins[i].key != ins[j].key
    {
      KeyOwn(ins[i]);
      KeyOwn(ins[j]);
    }
  }

  /**
   * The operator's own step, as FinishFields describes it, keeps the first input's register
   * for the operator and frees the others.
   */
  lemma OperatorLive(t: Csg, g: Gen, h1: Gen, h: Gen)
    requires t.Op? && |t.inputs| > 0 && Unique(t) && Ok(g) && InputsDone(t.inputs, g, h1)
    requires h.next == h1.next && h.count == h1.count
    requires h.free == h1.free + Tops(t.inputs[1..], h1.ids[t.key := Id(h1.ids, t.inputs[0].key)])
    requires Released(t.inputs, h1.ids[t.key := Id(h1.ids, t.inputs[0].key)], h.ids)
    ensures NodeDone(t, g, h)
  {
    var ins := t.inputs;
    var rs := Tops(ins, h1.ids);
    var r := rs[0];
    InputKeys(t);
    var ids1 := h1.ids[t.key := r];
    assert Tops(ins[1..], ids1) == rs[1..];
    RegistersAfterOperator(g, h1, h, rs);
    assert t.key !in TopKeys(ins[1..]);
    forall k | k !in Keys(t)
      ensures Id(h.ids, k) == Id(g.ids, k)
    {
      OutsideKept(ins, t.key, r, g.ids, h1.ids, h.ids, k);
    }
    forall k | k in Keys(t) && k != t.key
      ensures Id(h.ids, k) == NotAssigned
    {
      KeysOfMember(ins, k);
      var i :| 0 <= i < |ins| && k in Keys(ins[i]);
      InputUnassigned(ins, h1.ids, t.key, r, h.ids, i, k);
    }
  }

  /** Freeing all but the first of the inputs' registers leaves the first as the one more live. */
  lemma RegistersAfterOperator(g: Gen, h1: Gen, h: Gen, rs: seq<int>)
    requires Ok(g) && Ok(h1) && |rs| > 0 && Distinct(rs) && (forall i :: 0 <= i < |rs| ==> rs[i] !in Live(g))
    requires Live(h1) == Live(g) + (set x | x in rs)
    requires h.next == h1.next && h.count == h1.count && h.free == h1.free + rs[1..]
    ensures Ok(h) && rs[0] !in Live(g) && Live(h) == Live(g) + {rs[0]}
  {
    FreeLive(h1, h, rs[1..]);
    assert (set x | x in rs) - (set x | x in rs[1..]) == {rs[0]} by {
      assert rs == [rs[0]] + rs[1..];
    }
  }

  /** A key outside the operator's subtree keeps its id. */
  lemma OutsideKept(ins: seq<Csg>, own: nat, r: int, before: map<nat, int>, mid: map<nat, int>,
                    after: map<nat, int>, k: nat)
    requires |ins| > 0 && k != own && k !in KeysOf(ins)
    requires forall i :: 0 <= i < |ins| ==> ins[i].key in KeysOf(ins)
    requires forall x :: x !in KeysOf(ins) ==> Id(mid, x) == Id(before, x)
    requires Released(ins, mid[own := r], after)
    ensures Id(after, k) == Id(before, k)
  {
    assert Id(mid[own := r], k) == Id(mid, k);
  }

  /** A node below the operator is unassigned: by its own operator or by an earlier one. */
  lemma InputUnassigned(ins: seq<Csg>, before: map<nat, int>, own: nat, r: int, after: map<nat, int>, i: nat, k: nat)
    requires 0 < |ins| && i < |ins| && k in Keys(ins[i]) && k != own
    requires forall j, x :: 0 <= j < |ins| && x in Keys(ins[j]) && x != ins[j].key ==> Id(before, x) == NotAssigned
    requires Released(ins, before[own := r], after)
    ensures Id(after, k) == NotAssigned
  {
    assert Id(before[own := r], k) == Id(before, k);
    if k != ins[0].key && k !in TopKeys(ins[1..]) && i > 0 {
      assert ins[1..][i - 1].key == ins[i].key;
    }
  }

  /** The first input and the other inputs are unassigned, every other id is as in `ids1`. */
  ghost predicate Released(ins: seq<Csg>, ids1: map<nat, int>, ids: map<nat, int>)
    requires |ins| > 0
  {
    forall k :: Id(ids, k) == if k == ins[0].key || k in TopKeys(ins[1..]) then NotAssigned else Id(ids1, k)
  }

  /** What releasing the inputs does to the allocator and the traversal ids. */
  lemma ReleaseFields(t: Csg, g: Gen)
    requires t.Op? && |t.inputs| > 0
    requires forall i, j :: 1 <= i < j < |t.inputs| ==> t.inputs[i].key != t.inputs[j].key
    ensures var h := Release(t, g);
      h.next == g.next && h.count == g.count && h.free == g.free + Tops(t.inputs[1..], g.ids) &&
      Released(t.inputs, g.ids, h.ids)
  {
    FreeInputsEffect(g, t.inputs[1..]);
  }

  /**
   * A whole generation from a fresh generator: when it succeeds, the root's register is the
   * only live one, every register below the counter was declared exactly once, and every node
   * but the root is unassigned again (the root itself is unassigned right after).
   */
  lemma GenerationLive(root: Csg, g: Gen, e: Env)
    requires Unique(root) && g.count == 0 && Emit(root, Start(g), e).Success?
    ensures var h := Emit(root, Start(g), e).value;
      Live(h) == {Id(h.ids, root.key)} && h.count == h.next &&
      forall k :: k in Keys(root) && k != root.key ==> Id(h.ids, k) == NotAssigned
  {
    assert Live(Start(g)) == {};
    EmitLive(root, Start(g), e);
  }

  /** The operator's own step fails exactly for a smooth operator without exactly two inputs. */
  lemma FinishSucceeds(t: Csg, g: Gen, e: Env)
    requires t.Op? && |t.inputs| > 0 && |g.stack| > 0
    ensures Finish(t, g, e).Success? <==> (t.description.IsSmooth() ==> |t.inputs| == 2)
    ensures Finish(t, g, e).Failure? ==> Finish(t, g, e).error == GenError(SmoothOperatorNeedsExactlyTwoInputs, t.key)
  {
    var g1 := Claim(t, g.(stack := g.stack[..|g.stack| - 1]));
    OperatorFails(t.description, InputNames(e, t.inputs, g1.ids));
  }

  /**
   * Visiting a node succeeds exactly when its subtree is well formed; a failure names a node
   * of the subtree.
   */
  lemma {:induction false} EmitSucceeds(t: Csg, g: Gen, e: Env)
    requires |g.stack| > 0
    ensures Emit(t, g, e).Success? <==> WellFormed(t)
    ensures Emit(t, g, e).Failure? ==> Emit(t, g, e).error.source in Keys(t)
    decreases t, 1
  {
    if t.Op? && |t.inputs| > 0 {
      var g0 := Push(t, g);
      EmitInputsSucceeds(t.inputs, g0, e);
      if EmitInputs(t.inputs, g0, e).Success? {
        FinishSucceeds(t, EmitInputs(t.inputs, g0, e).value, e);
      }
    }
  }

  lemma {:induction false} EmitInputsSucceeds(ts: seq<Csg>, g: Gen, e: Env)
    requires |g.stack| > 0
    ensures EmitInputs(ts, g, e).Success? <==> AllWellFormed(ts)
    ensures EmitInputs(ts, g, e).Failure? ==> EmitInputs(ts, g, e).error.source in KeysOf(ts)
    decreases ts, 0
  {
    if ts != [] {
      var n := |ts| - 1;
      EmitInputsSucceeds(ts[..n], g, e);
      if EmitInputs(ts[..n], g, e).Success? {
        EmitSucceeds(ts[n], EmitInputs(ts[..n], g, e).value, e);
      }
    }
  }

  /** A generation succeeds exactly when the tree is well formed. */
  lemma GenerateSucceeds(root: Csg, g: Gen, e: Env)
    ensures Generate(root, g, e).Success? <==> WellFormed(root)
    ensures Generate(root, g, e).Failure? ==> Generate(root, g, e).error.source in Keys(root)
  {
    EmitSucceeds(root, Start(g), e);
  }
}
