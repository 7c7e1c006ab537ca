/**
 * The automatic layout of the node editor (LayoutCalculatorVisitor.cpp).  Nodes are placed in
 * columns by depth, 300 units apart and growing to the left; within a column every node takes
 * the next free vertical slot of its layer, and an operator is centred on the slots of its
 * inputs.  The per-layer bookkeeping is a stack of vertical positions whose last entry is the
 * next free slot of that layer.
 *
 * The visitor walks trees; a node is identified by its key and its suggested position is kept
 * the first time the key is reached.
 */
module Layout {
  import opened Operators
  import opened Nodes
  import opened Trees

  const ColumnWidth := 300
  const NodeHeight := 200

  /** A suggested position: the editor's floats hold these whole numbers exactly. */
  datatype Pos = Pos(x: int, y: int)

  /** The visitor's state: the positions found so far, the layers and the current depth. */
  datatype Layers = Layers(positions: map<nat, Pos>, stack: seq<seq<int>>, depth: int)

  /** The current depth names a layer and every layer has a next free slot. */
  predicate Valid(s: Layers) {
    0 <= s.depth < |s.stack| && forall j :: 0 <= j < |s.stack| ==> |s.stack[j]| > 0
  }

  function Last(layer: seq<int>): int
    requires |layer| > 0
  {
    layer[|layer| - 1]
  }

  /** A map insertion that keeps an existing entry, as `emplace` does. */
  function Emplace(m: map<nat, Pos>, k: nat, p: Pos): (r: map<nat, Pos>)
    ensures k in r && r.Keys == m.Keys + {k}
    ensures k in m ==> r == m
    ensures k !in m ==> r[k] == p && forall k' :: k' in m ==> r[k'] == m[k']
  {
    if k in m then m else m[k := p]
  }

  /** C++ integer division by two, truncating toward zero. */
  function Half(x: int): (h: int)
    ensures 0 <= x ==> h == x / 2
    ensures x < 0 ==> h == -((-x) / 2)
  {
    if x >= 0 then x / 2 else -((-x) / 2)
  }

  /**
   * The vertical position of an operator whose inputs took the slots `layer[first..last + 1]`:
   * the middle slot, or the mean of the two middle slots for an even count.
   */
  function Centre(layer: seq<int>, first: nat, last: nat): int
    requires first <= last < |layer|
  {
    if (last - first + 1) % 2 == 0 then Half(layer[(last + first) / 2] + layer[(last + first + 1) / 2])
    else layer[(last + first) / 2]
  }

  /**
   * Record node `key` at vertical position `y` in the current column: `y` replaces the layer's
   * free slot and the next free slot is one node height below it.
   */
  function Settle(key: nat, s: Layers, y: int): (r: Layers)
    requires Valid(s)
    ensures Valid(r) && r.depth == s.depth
  {
    var d := s.depth;
    var layer := s.stack[d];
    s.(positions := Emplace(s.positions, key, Pos(-ColumnWidth * d, y)),
       stack := s.stack[d := layer[..|layer| - 1] + [y, y + NodeHeight]])
  }

  /**
   * Before an operator at depth d visits its inputs: the first node of layer d + 1 opens that
   * layer at the operator's own slot.  With `raise`, an existing layer d + 1 also has its free
   * slot moved down to the operator's slot when it is above it (the corrected rule, see
   * `RaisedNoOverlap`); the source leaves an existing layer as it is.
   */
  function Open(s: Layers, raise: bool): (r: Layers)
    requires Valid(s)
    ensures Valid(r) && r.depth == s.depth && r.positions == s.positions
    ensures s.depth + 1 < |r.stack| && r.stack[..s.depth + 1] == s.stack[..s.depth + 1]
  {
    var d := s.depth;
    var slot := Last(s.stack[d]);
    if |s.stack| == d + 1 then s.(stack := s.stack + [[slot]])
    else if raise && Last(s.stack[d + 1]) < slot then
      var next := s.stack[d + 1];
      s.(stack := s.stack[d + 1 := next[..|next| - 1] + [slot]])
    else s
  }

  /**
   * The state after visiting tree `t` from `s`: the depth comes back, no layer above the
   * current one changes and the current layer gains exactly one entry (`PlaceFrame` says
   * which).
   */
  function Place(t: Csg, s: Layers, raise: bool): (r: Layers)
    requires Valid(s)
    ensures Valid(r) && r.depth == s.depth && |r.stack[s.depth]| == |s.stack[s.depth]| + 1
    ensures r.stack[..s.depth] == s.stack[..s.depth]
    decreases t, 2
  {
    match t
    case Prim(_, _, _, _, _, _) => Settle(t.key, s, Last(s.stack[s.depth]))
    case Op(_, _, _, _, _, _, _) => PlaceOperator(t, s, raise)
  }

  /**
   * An operator's visit: open layer d + 1, visit the inputs there, and settle the operator on
   * the centre of the slots they took (on its own slot when it has no inputs).
   */
  function PlaceOperator(t: Csg, s: Layers, raise: bool): (r: Layers)
    requires t.Op? && Valid(s)
    ensures Valid(r) && r.depth == s.depth && |r.stack[s.depth]| == |s.stack[s.depth]| + 1
    ensures r.stack[..s.depth] == s.stack[..s.depth]
    decreases t, 1
  {
    var d := s.depth;
    var s1 := Open(s, raise);
    var s2 := Descend(t.inputs, s1, raise);
    assert s2.stack[d] == s2.stack[..d + 1][d];
    Settle(t.key, s2, Own(s1, s2, |t.inputs|))
  }

  /**
   * Where an operator at depth d settles: on its layer's free slot without inputs, otherwise
   * on the centre of the slots of layer d + 1 its `k` inputs took.
   */
  function Own(s1: Layers, s2: Layers, k: nat): int
    requires Valid(s1) && Valid(s2) && s1.depth + 1 < |s1.stack| && s1.depth + 1 < |s2.stack|
    requires |s2.stack[s1.depth + 1]| == |s1.stack[s1.depth + 1]| + k
  {
    var d := s1.depth;
    if k == 0 then Last(s1.stack[d])
    else Centre(s2.stack[d + 1], |s1.stack[d + 1]| - 1, |s2.stack[d + 1]| - 2)
  }

  /** The inputs `ts` of an operator at depth d, visited one layer down; the depth comes back. */
  function Descend(ts: seq<Csg>, s: Layers, raise: bool): (r: Layers)
    requires Valid(s) && s.depth + 1 < |s.stack|
    ensures Valid(r) && r.depth == s.depth && s.depth + 1 < |r.stack|
    ensures r.stack[..s.depth + 1] == s.stack[..s.depth + 1]
    ensures |r.stack[s.depth + 1]| == |s.stack[s.depth + 1]| + |ts|
    decreases ts, 1
  {
    var r := PlaceAll(ts, s.(depth := s.depth + 1), raise);
    assert r.stack[..s.depth + 1] == r.stack[..s.depth + 1][..s.depth + 1];
    r.(depth := s.depth)
  }

  /** The state after visiting the trees `ts` in order, all at the current depth. */
  function PlaceAll(ts: seq<Csg>, s: Layers, raise: bool): (r: Layers)
    requires Valid(s)
    ensures Valid(r) && r.depth == s.depth && |r.stack[s.depth]| == |s.stack[s.depth]| + |ts|
    ensures r.stack[..s.depth] == s.stack[..s.depth]
    decreases ts, 0
  {
    if ts == [] then s else Place(ts[|ts| - 1], PlaceAll(ts[..|ts| - 1], s, raise), raise)
  }

  /**
   * `r` differs from `s` only as visits at the current depth may: the current layer keeps its
   * entries before its free slot, exactly the keys `keys` gain a position and no position
   * found earlier is overwritten.
   */
  ghost predicate Kept(s: Layers, r: Layers, keys: set<nat>)
    requires Valid(s) && Valid(r) && r.depth == s.depth && |r.stack[s.depth]| >= |s.stack[s.depth]|
  {
    var d := s.depth;
    r.stack[d][..|s.stack[d]| - 1] == s.stack[d][..|s.stack[d]| - 1] &&
    r.positions.Keys == s.positions.Keys + keys &&
    (forall k :: k in s.positions ==> r.positions[k] == s.positions[k])
  }

  /** Settling `key` on a state `m` that only added positions for `keys` to `s`. */
  lemma SettleKept(s: Layers, m: Layers, key: nat, y: int, keys: set<nat>)
    requires Valid(s) && Valid(m) && m.depth == s.depth && m.stack[s.depth] == s.stack[s.depth]
    requires m.positions.Keys == s.positions.Keys + keys
    requires forall k :: k in s.positions ==> m.positions[k] == s.positions[k]
    ensures var r := Settle(key, m, y); var n := |s.stack[s.depth]|;
      |r.stack[s.depth]| == n + 1 && Kept(s, r, keys + {key}) &&
      r.stack[s.depth][n - 1] == y && r.stack[s.depth][n] == y + NodeHeight &&
      (key !in m.positions ==> r.positions == m.positions[key := Pos(-ColumnWidth * s.depth, y)])
  {
    var layer := s.stack[s.depth];
    assert (layer[..|layer| - 1] + [y, y + NodeHeight])[..|layer| - 1] == layer[..|layer| - 1];
  }

  /**
   * A visit of `t` at depth d keeps the rest of the state, gives a position to every key of
   * the tree, turns the layer's free slot into the node's position and opens a new free slot
   * one node height below it; a node reached for the first time is put in column d at that
   * position.
   */
  lemma {:induction false} PlaceFrame(t: Csg, s: Layers, raise: bool)
    requires Valid(s)
    ensures var r := Place(t, s, raise); var n := |s.stack[s.depth]|;
      Kept(s, r, Keys(t)) && r.stack[s.depth][n] == r.stack[s.depth][n - 1] + NodeHeight &&
      (t.key !in s.positions && (t.Op? ==> t.key !in KeysOf(t.inputs)) ==>
         r.positions[t.key] == Pos(-ColumnWidth * s.depth, r.stack[s.depth][n - 1]))
    decreases t, 2
  {
    match t
    case Prim(_, _, _, _, _, _) =>
      SettleKept(s, s, t.key, Last(s.stack[s.depth]), {});
    case Op(_, _, _, _, _, _, _) =>
      PlaceOperatorFrame(t, s, raise);
  }

  lemma {:induction false} PlaceOperatorFrame(t: Csg, s: Layers, raise: bool)
    requires t.Op? && Valid(s)
    ensures var r := PlaceOperator(t, s, raise); var n := |s.stack[s.depth]|;
      Kept(s, r, Keys(t)) && r.stack[s.depth][n] == r.stack[s.depth][n - 1] + NodeHeight &&
      (t.key !in s.positions && t.key !in KeysOf(t.inputs) ==>
         r.positions[t.key] == Pos(-ColumnWidth * s.depth, r.stack[s.depth][n - 1]))
    decreases t, 1
  {
    var d := s.depth;
    var s1 := Open(s, raise);
    var s2 := Descend(t.inputs, s1, raise);
    DescendFrame(t.inputs, s1, raise);
    assert s2.stack[d] == s2.stack[..d + 1][d] == s.stack[..d + 1][d];
    SettleKept(s, s2, t.key, Own(s1, s2, |t.inputs|), KeysOf(t.inputs));
  }

  /** An operator's inputs, visited one layer down, only add positions for their keys. */
  lemma {:induction false} DescendFrame(ts: seq<Csg>, s: Layers, raise: bool)
    requires Valid(s) && s.depth + 1 < |s.stack|
    ensures var r := Descend(ts, s, raise);
      r.positions.Keys == s.positions.Keys + KeysOf(ts) &&
      (forall k :: k in s.positions ==> r.positions[k] == s.positions[k])
    decreases ts, 1
  {
    PlaceAllFrame(ts, s.(depth := s.depth + 1), raise);
  }

  /** Visiting `ts` at depth d keeps the rest of the state and gives every key a position. */
  lemma {:induction false} PlaceAllFrame(ts: seq<Csg>, s: Layers, raise: bool)
    requires Valid(s)
    ensures Kept(s, PlaceAll(ts, s, raise), KeysOf(ts))
    decreases ts, 0
  {
    if ts != [] {
      var n := |ts| - 1;
      var s1 := PlaceAll(ts[..n], s, raise);
      PlaceAllFrame(ts[..n], s, raise);
      PlaceFrame(ts[n], s1, raise);
      var m := |s.stack[s.depth]| - 1;
      assert s1.stack[s.depth][..|s1.stack[s.depth]| - 1][..m] == s1.stack[s.depth][..m];
    }
  }

  /** The state a layout starts from: no positions, one layer whose free slot is 0, depth 0. */
  const Initial := Layers(map[], [[0]], 0)

  /** The suggested positions of the nodes of the forest `roots`. */
  function Suggested(roots: seq<Csg>, raise: bool): map<nat, Pos> {
    PlaceAll(roots, Initial, raise).positions
  }

  /** A layout gives a position to exactly the nodes of the forest. */
  lemma SuggestedCovers(roots: seq<Csg>, raise: bool)
    ensures Suggested(roots, raise).Keys == KeysOf(roots)
  {
    PlaceAllFrame(roots, Initial, raise);
  }

  /** The nodes `ts` have positions in column `x`, on the slots `layer[start..start + |ts|]`. */
  ghost predicate AtSlots(ts: seq<Csg>, p: map<nat, Pos>, x: int, layer: seq<int>, start: nat) {
    start + |ts| <= |layer| &&
    forall i :: 0 <= i < |ts| ==> ts[i].key in p && p[ts[i].key] == Pos(x, layer[start + i])
  }

  /** Slots stay taken while the positions are kept and the layer keeps those entries. */
  lemma AtSlotsKept(ts: seq<Csg>, p: map<nat, Pos>, q: map<nat, Pos>, x: int, layer: seq<int>,
                    later: seq<int>, start: nat)
    requires AtSlots(ts, p, x, layer, start)
    requires forall k :: k in p ==> k in q && q[k] == p[k]
    requires start + |ts| <= |later| && later[..start + |ts|] == layer[..start + |ts|]
    ensures AtSlots(ts, q, x, later, start)
  {
    forall i | start <= i < start + |ts|
      ensures later[i] == layer[i]
    {
      assert later[..start + |ts|][i] == layer[..start + |ts|][i];
    }
  }

  /** Adding the next node on the next slot. */
  lemma AtSlotsSnoc(ts: seq<Csg>, p: map<nat, Pos>, x: int, layer: seq<int>, start: nat)
    requires |ts| > 0 && AtSlots(ts[..|ts| - 1], p, x, layer, start) && start + |ts| <= |layer|
    requires ts[|ts| - 1].key in p && p[ts[|ts| - 1].key] == Pos(x, layer[start + |ts| - 1])
    ensures AtSlots(ts, p, x, layer, start)
  {
    assert forall i :: 0 <= i < |ts| - 1 ==> ts[..|ts| - 1][i] == ts[i];
  }

  /**
   * With distinct keys, visiting `ts` at depth d puts them in column d on consecutive entries of
   * layer d, starting at its old free slot, in visiting order.
   */
  lemma {:induction false} InputsSlots(ts: seq<Csg>, s: Layers, raise: bool)
    requires Valid(s) && UniqueAll(ts) && KeysOf(ts) !! s.positions.Keys
    ensures var r := PlaceAll(ts, s, raise);
      AtSlots(ts, r.positions, -ColumnWidth * s.depth, r.stack[s.depth], |s.stack[s.depth]| - 1)
    decreases |ts|
  {
    if ts != [] {
      var m := |ts| - 1;
      LastKeyFresh(ts, s, raise);
      InputsSlots(ts[..m], s, raise);
      SlotsStep(ts[..m], ts[m], PlaceAll(ts[..m], s, raise), raise, |s.stack[s.depth]| - 1);
      assert ts[..m] + [ts[m]] == ts;
    }
  }

  /** With distinct keys, the last tree's root has no position after its siblings' visits. */
  lemma LastKeyFresh(ts: seq<Csg>, s: Layers, raise: bool)
    requires Valid(s) && |ts| > 0 && UniqueAll(ts) && KeysOf(ts) !! s.positions.Keys
    ensures var m := |ts| - 1;
      UniqueAll(ts[..m]) && KeysOf(ts[..m]) !! s.positions.Keys &&
      ts[m].key !in PlaceAll(ts[..m], s, raise).positions &&
      (ts[m].Op? ==> ts[m].key !in KeysOf(ts[m].inputs))
  {
    var m := |ts| - 1;
    KeyOwn(ts[m]);
    PlaceAllFrame(ts[..m], s, raise);
  }

  /** One more visit at depth d takes the slot after those of the nodes visited before it. */
  lemma SlotsStep(before: seq<Csg>, t: Csg, s: Layers, raise: bool, start: nat)
    requires Valid(s) && start + |before| + 1 == |s.stack[s.depth]|
    requires AtSlots(before, s.positions, -ColumnWidth * s.depth, s.stack[s.depth], start)
    requires t.key !in s.positions && (t.Op? ==> t.key !in KeysOf(t.inputs))
    ensures var r := Place(t, s, raise);
      AtSlots(before + [t], r.positions, -ColumnWidth * s.depth, r.stack[s.depth], start)
  {
    var r := Place(t, s, raise);
    var x := -ColumnWidth * s.depth;
    PlaceFrame(t, s, raise);
    AtSlotsKept(before, s.positions, r.positions, x, s.stack[s.depth], r.stack[s.depth], start);
    AtSlotsSnoc(before + [t], r.positions, x, r.stack[s.depth], start);
  }

  /** The vertical middle of a non-empty column of positions, as an operator computes it. */
  function Middle(ys: seq<int>): int
    requires |ys| > 0
  {
    if |ys| % 2 == 0 then Half(ys[|ys| / 2 - 1] + ys[|ys| / 2]) else ys[|ys| / 2]
  }

  /** The vertical positions of the nodes `ts`, all of which have a position in `p`. */
  function Rows(ts: seq<Csg>, p: map<nat, Pos>): (ys: seq<int>)
    requires forall i :: 0 <= i < |ts| ==> ts[i].key in p
    ensures |ys| == |ts| && forall i :: 0 <= i < |ts| ==> ys[i] == p[ts[i].key].y
  {
    seq(|ts|, i requires 0 <= i < |ts| => p[ts[i].key].y)
  }

  /** The index arithmetic of the source's centring, over the slots `layer[first..first + k]`. */
  lemma MiddleIsCentre(layer: seq<int>, first: nat, k: nat)
    requires 0 < k && first + k <= |layer|
    ensures Centre(layer, first, first + k - 1) == Middle(layer[first..first + k])
  {
    assert (first + k - 1 + first) / 2 == first + (k - 1) / 2;
    assert (first + k - 1 + first + 1) / 2 == first + k / 2;
  }

  /**
   * If the nodes `ts` sit on the slots `layer[first..]` one column left of `x`, and `key` is
   * then recorded at the centre of those slots, `key` sits on the middle of their positions.
   */
  lemma MiddleOfRows(ts: seq<Csg>, q: map<nat, Pos>, key: nat, x: int, layer: seq<int>, first: nat)
    requires |ts| > 0 && |layer| == first + |ts| + 1 && key !in q
    requires AtSlots(ts, q, x - ColumnWidth, layer, first)
    ensures var p := q[key := Pos(x, Centre(layer, first, |layer| - 2))];
      (forall i :: 0 <= i < |ts| ==> ts[i].key in p && p[ts[i].key].x == p[key].x - ColumnWidth) &&
      p[key].y == Middle(Rows(ts, p))
  {
    var p := q[key := Pos(x, Centre(layer, first, |layer| - 2))];
    assert forall i :: 0 <= i < |ts| ==> ts[i].key != key && p[ts[i].key] == q[ts[i].key];
    assert Rows(ts, p) == layer[first..first + |ts|];
    MiddleIsCentre(layer, first, |ts|);
  }

  /**
   * An operator with inputs, in a tree with distinct keys none of which has a position yet,
   * is placed one column right of its inputs and vertically on the middle of their positions
   * (the mean of the two middle ones for an even count).
   */
  lemma OperatorCentred(t: Csg, s: Layers, raise: bool)
    requires Valid(s) && t.Op? && |t.inputs| > 0 && Unique(t) && Keys(t) !! s.positions.Keys
    ensures var p := Place(t, s, raise).positions;
      t.key in p &&
      (forall i :: 0 <= i < |t.inputs| ==> t.inputs[i].key in p && p[t.inputs[i].key].x == p[t.key].x - ColumnWidth) &&
      p[t.key].y == Middle(Rows(t.inputs, p))
  {
    var d := s.depth;
    var s1 := Open(s, raise);
    var s2 := Descend(t.inputs, s1, raise);
    KeyOwn(t);
    DescendFrame(t.inputs, s1, raise);
    InputsSlots(t.inputs, s1.(depth := d + 1), raise);
    CentredOn(s1, s2, t.key, t.inputs);
  }

  /** Settling `key` on the centre of the slots its inputs `ts` took one layer down. */
  lemma CentredOn(s1: Layers, s2: Layers, key: nat, ts: seq<Csg>)
    requires Valid(s1) && Valid(s2) && s2.depth == s1.depth && |ts| > 0
    requires s1.depth + 1 < |s1.stack| && s1.depth + 1 < |s2.stack| && key !in s2.positions
    requires |s2.stack[s1.depth + 1]| == |s1.stack[s1.depth + 1]| + |ts|
    requires AtSlots(ts, s2.positions, -ColumnWidth * (s1.depth + 1), s2.stack[s1.depth + 1], |s1.stack[s1.depth + 1]| - 1)
    ensures var p := Settle(key, s2, Own(s1, s2, |ts|)).positions;
      key in p &&
      (forall i :: 0 <= i < |ts| ==> ts[i].key in p && p[ts[i].key].x == p[key].x - ColumnWidth) &&
      p[key].y == Middle(Rows(ts, p))
  {
    var d := s1.depth;
    MiddleOfRows(ts, s2.positions, key, -ColumnWidth * d, s2.stack[d + 1], |s1.stack[d + 1]| - 1);
  }

  /** An operator without inputs takes its layer's free slot, as a primitive does. */
  lemma SlotTaken(t: Csg, s: Layers, raise: bool)
    requires Valid(s) && (t.Prim? || |t.inputs| == 0)
    ensures Place(t, s, raise).stack[s.depth][|s.stack[s.depth]| - 1] == Last(s.stack[s.depth])
  {
    if t.Op? {
      var s1 := Open(s, raise);
      assert Descend(t.inputs, s1, raise) == s1;
      assert s1.stack[s.depth] == s1.stack[..s.depth + 1][s.depth];
    }
  }

  /** Each entry of a layer is at least one node height below the one before it. */
  ghost predicate SpacedLayer(layer: seq<int>)
    decreases |layer|
  {
    |layer| <= 1 ||
    (SpacedLayer(layer[..|layer| - 1]) && layer[|layer| - 2] + NodeHeight <= layer[|layer| - 1])
  }

  /** In a spaced layer, later entries are lower by at least a node height. */
  lemma {:induction false} SpacedApart(layer: seq<int>, i: nat, k: nat)
    requires SpacedLayer(layer) && i < k < |layer|
    ensures layer[i] + NodeHeight <= layer[k]
    decreases |layer|
  {
    var front := layer[..|layer| - 1];
    if k < |layer| - 1 {
      SpacedApart(front, i, k);
    } else if i < k - 1 {
      SpacedApart(front, i, k - 1);
    }
  }

  /** In every layer, the positions given and the free slot are at least one node height apart. */
  ghost predicate Spaced(s: Layers) {
    forall j :: 0 <= j < |s.stack| ==> SpacedLayer(s.stack[j])
  }

  /** Moving a spaced layer's free slot down and then giving it away keeps the layer spaced. */
  lemma LowerSlot(layer: seq<int>, y: int)
    requires |layer| > 0 && SpacedLayer(layer) && y >= Last(layer)
    ensures SpacedLayer(layer[..|layer| - 1] + [y])
    ensures SpacedLayer(layer[..|layer| - 1] + [y, y + NodeHeight])
  {
    var front := layer[..|layer| - 1];
    assert (front + [y])[..|front|] == front;
    assert (front + [y, y + NodeHeight])[..|front| + 1] == front + [y];
  }

  /** Settling at `y` turns the free slot into `y`. */
  lemma SettleSlot(key: nat, s: Layers, y: int)
    requires Valid(s)
    ensures var r := Settle(key, s, y);
      |r.stack[s.depth]| == |s.stack[s.depth]| + 1 && r.stack[s.depth][|s.stack[s.depth]| - 1] == y
  {
  }

  /** Settling at or below the free slot keeps the layers spaced. */
  lemma SettleSpaced(key: nat, s: Layers, y: int)
    requires Valid(s) && Spaced(s) && y >= Last(s.stack[s.depth])
    ensures Spaced(Settle(key, s, y))
  {
    LowerSlot(s.stack[s.depth], y);
  }

  /** Opening layer d + 1 with the raised rule keeps the layers spaced. */
  lemma OpenSpaced(s: Layers)
    requires Valid(s) && Spaced(s)
    ensures var r := Open(s, true);
      Spaced(r) && Last(r.stack[s.depth + 1]) >= Last(s.stack[s.depth])
  {
    var d := s.depth;
    if |s.stack| > d + 1 && Last(s.stack[d + 1]) < Last(s.stack[d]) {
      LowerSlot(s.stack[d + 1], Last(s.stack[d]));
    }
  }

  /** In a spaced layer, an operator centred on slots from `first` on is no higher than `first`. */
  lemma CentreBelow(layer: seq<int>, first: nat, last: nat, low: int)
    requires first <= last < |layer| && SpacedLayer(layer) && layer[first] >= low
    ensures Centre(layer, first, last) >= low
  {
    if first < (last + first) / 2 {
      SpacedApart(layer, first, (last + first) / 2);
    }
    if first < (last + first + 1) / 2 {
      SpacedApart(layer, first, (last + first + 1) / 2);
    }
  }

  /**
   * The corrected rule: when an operator raises an existing layer d + 1 to its own slot before
   * visiting its inputs, every node is placed at or below its layer's free slot, so the layers
   * stay spaced (`RaisedNoOverlap` draws the consequence for the returned positions).
   */
  lemma {:induction false} RaisedSpaced(t: Csg, s: Layers)
    requires Valid(s) && Spaced(s)
    ensures var r := Place(t, s, true);
      Spaced(r) && r.stack[s.depth][|s.stack[s.depth]| - 1] >= Last(s.stack[s.depth])
    decreases t, 2
  {
    match t
    case Prim(_, _, _, _, _, _) =>
      SettleSpaced(t.key, s, Last(s.stack[s.depth]));
      SettleSlot(t.key, s, Last(s.stack[s.depth]));
    case Op(_, _, _, _, _, _, _) =>
      RaisedOperatorSpaced(t, s);
  }

  lemma {:induction false} RaisedOperatorSpaced(t: Csg, s: Layers)
    requires t.Op? && Valid(s) && Spaced(s)
    ensures var r := PlaceOperator(t, s, true);
      Spaced(r) && r.stack[s.depth][|s.stack[s.depth]| - 1] >= Last(s.stack[s.depth])
    decreases t, 1
  {
    var d := s.depth;
    var s1 := Open(s, true);
    var s2 := Descend(t.inputs, s1, true);
    OpenSpaced(s);
    RaisedDescendSpaced(t.inputs, s1);
    OwnBelow(s, s1, s2, |t.inputs|);
    SettleAbove(s, s2, t.key, Own(s1, s2, |t.inputs|));
  }

  /** An operator whose inputs were laid out spaced, below its slot, settles below its slot. */
  lemma OwnBelow(s: Layers, s1: Layers, s2: Layers, k: nat)
    requires Valid(s) && Valid(s1) && Valid(s2) && s1.depth == s.depth
    requires s.depth + 1 < |s1.stack| && s.depth + 1 < |s2.stack| && Spaced(s2)
    requires s1.stack[..s.depth + 1] == s.stack[..s.depth + 1]
    requires |s2.stack[s.depth + 1]| == |s1.stack[s.depth + 1]| + k
    requires Last(s1.stack[s.depth + 1]) >= Last(s.stack[s.depth])
    requires s2.stack[s.depth + 1][|s1.stack[s.depth + 1]| - 1] >= Last(s1.stack[s.depth + 1])
    ensures Own(s1, s2, k) >= Last(s.stack[s.depth])
  {
    var d := s.depth;
    assert s1.stack[d] == s1.stack[..d + 1][d];
    if k > 0 {
      assert SpacedLayer(s2.stack[d + 1]);
      CentreBelow(s2.stack[d + 1], |s1.stack[d + 1]| - 1, |s2.stack[d + 1]| - 2, Last(s.stack[d]));
    }
  }

  /** Settling at or below the free slot of `s`, on a spaced state with the same layer. */
  lemma SettleAbove(s: Layers, m: Layers, key: nat, y: int)
    requires Valid(s) && Valid(m) && m.depth == s.depth && Spaced(m)
    requires m.stack[..s.depth + 1] == s.stack[..s.depth + 1] && y >= Last(s.stack[s.depth])
    ensures var r := Settle(key, m, y);
      Spaced(r) && r.stack[s.depth][|s.stack[s.depth]| - 1] >= Last(s.stack[s.depth])
  {
    assert m.stack[s.depth] == m.stack[..s.depth + 1][s.depth] == s.stack[..s.depth + 1][s.depth];
    SettleSpaced(key, m, y);
    SettleSlot(key, m, y);
  }

  lemma {:induction false} RaisedDescendSpaced(ts: seq<Csg>, s: Layers)
    requires Valid(s) && Spaced(s) && s.depth + 1 < |s.stack|
    ensures var r := Descend(ts, s, true);
      Spaced(r) && r.stack[s.depth + 1][|s.stack[s.depth + 1]| - 1] >= Last(s.stack[s.depth + 1])
    decreases ts, 1
  {
    RaisedAllSpaced(ts, s.(depth := s.depth + 1));
  }

  lemma {:induction false} RaisedAllSpaced(ts: seq<Csg>, s: Layers)
    requires Valid(s) && Spaced(s)
    ensures var r := PlaceAll(ts, s, true);
      Spaced(r) && r.stack[s.depth][|s.stack[s.depth]| - 1] >= Last(s.stack[s.depth])
    decreases ts, 0
  {
    if ts != [] {
      var m := |ts| - 1;
      var s1 := PlaceAll(ts[..m], s, true);
      RaisedAllSpaced(ts[..m], s);
      RaisedSpaced(ts[m], s1);
      PlaceFrame(ts[m], s1, true);
      var n := |s.stack[s.depth]|;
      if m > 0 {
        var r := Place(ts[m], s1, true);
        assert r.stack[s.depth][..|s1.stack[s.depth]| - 1][n - 1] == s1.stack[s.depth][..|s1.stack[s.depth]| - 1][n - 1];
      }
    }
  }

  /** Laying out a forest with the corrected rule leaves every layer spaced. */
  lemma RaisedLayoutSpaced(roots: seq<Csg>)
    ensures Spaced(PlaceAll(roots, Initial, true))
  {
    RaisedAllSpaced(roots, Initial);
  }

  /** Two nodes of one column are at least one node height apart. */
  ghost predicate NoOverlap(p: map<nat, Pos>) {
    forall a, b :: a in p && b in p && a != b && p[a].x == p[b].x ==>
      p[a].y + NodeHeight <= p[b].y || p[b].y + NodeHeight <= p[a].y
  }

  /** The layer whose nodes are drawn at horizontal position `x`. */
  function ColumnOf(x: int): int {
    -x / ColumnWidth
  }

  /**
   * Every position lies in the column of an existing layer, a node height or more above that
   * layer's free slot, and no two positions of a column overlap.
   */
  ghost predicate Tidy(s: Layers)
    requires Valid(s)
  {
    (forall k :: k in s.positions ==>
       0 <= ColumnOf(s.positions[k].x) < |s.stack| &&
       s.positions[k].y + NodeHeight <= Last(s.stack[ColumnOf(s.positions[k].x)])) &&
    NoOverlap(s.positions)
  }

  /** `r` keeps the positions of `s` and no layer's free slot moves up. */
  ghost predicate Grown(s: Layers, r: Layers)
    requires Valid(s) && Valid(r)
  {
    r.positions == s.positions && |s.stack| <= |r.stack| &&
    forall j :: 0 <= j < |s.stack| ==> Last(s.stack[j]) <= Last(r.stack[j])
  }

  lemma GrownTidy(s: Layers, r: Layers)
    requires Valid(s) && Valid(r) && Tidy(s) && Grown(s, r)
    ensures Tidy(r)
  {
  }

  /** Opening layer d + 1 with the raised rule keeps the positions tidy. */
  lemma OpenTidy(s: Layers)
    requires Valid(s) && Tidy(s)
    ensures Tidy(Open(s, true))
  {
    var r := Open(s, true);
    var d := s.depth;
    assert forall j :: 0 <= j < |s.stack| && j != d + 1 ==> r.stack[j] == s.stack[j];
    GrownTidy(s, r);
  }

  /** Settling at or below the free slot keeps the positions tidy. */
  lemma SettleTidy(key: nat, s: Layers, y: int)
    requires Valid(s) && Tidy(s) && y >= Last(s.stack[s.depth])
    ensures Tidy(Settle(key, s, y))
  {
    var r := Settle(key, s, y);
    var d := s.depth;
    assert Last(r.stack[d]) == y + NodeHeight;
    assert forall j :: 0 <= j < |s.stack| && j != d ==> r.stack[j] == s.stack[j];
    if key in s.positions {
      GrownTidy(s, r);
    } else {
      var x := -ColumnWidth * d;
      assert ColumnOf(x) == d;
      assert r.positions == s.positions[key := Pos(x, y)];
      forall k | k in s.positions && s.positions[k].x == x
        ensures s.positions[k].y + NodeHeight <= y
      {
      }
    }
  }

  /** With the corrected rule, a visit keeps the positions tidy. */
  lemma {:induction false} RaisedTidy(t: Csg, s: Layers)
    requires Valid(s) && Spaced(s) && Tidy(s)
    ensures Tidy(Place(t, s, true))
    decreases t, 2
  {
    match t
    case Prim(_, _, _, _, _, _) =>
      SettleTidy(t.key, s, Last(s.stack[s.depth]));
    case Op(_, _, _, _, _, _, _) =>
      RaisedOperatorTidy(t, s);
  }

  lemma {:induction false} RaisedOperatorTidy(t: Csg, s: Layers)
    requires t.Op? && Valid(s) && Spaced(s) && Tidy(s)
    ensures Tidy(PlaceOperator(t, s, true))
    decreases t, 1
  {
    var d := s.depth;
    var s1 := Open(s, true);
    var s2 := Descend(t.inputs, s1, true);
    OpenSpaced(s);
    OpenTidy(s);
    RaisedDescendSpaced(t.inputs, s1);
    RaisedDescendTidy(t.inputs, s1);
    OwnBelow(s, s1, s2, |t.inputs|);
    SettleAboveTidy(s, s2, t.key, Own(s1, s2, |t.inputs|));
  }

  /** Settling at or below the free slot of `s`, on a tidy state with the same layer. */
  lemma SettleAboveTidy(s: Layers, m: Layers, key: nat, y: int)
    requires Valid(s) && Valid(m) && m.depth == s.depth && Tidy(m)
    requires m.stack[..s.depth + 1] == s.stack[..s.depth + 1] && y >= Last(s.stack[s.depth])
    ensures Tidy(Settle(key, m, y))
  {
    assert m.stack[s.depth] == m.stack[..s.depth + 1][s.depth] == s.stack[..s.depth + 1][s.depth];
    SettleTidy(key, m, y);
  }

  lemma {:induction false} RaisedDescendTidy(ts: seq<Csg>, s: Layers)
    requires Valid(s) && Spaced(s) && Tidy(s) && s.depth + 1 < |s.stack|
    ensures Tidy(Descend(ts, s, true))
    decreases ts, 1
  {
    RaisedAllTidy(ts, s.(depth := s.depth + 1));
  }

  lemma {:induction false} RaisedAllTidy(ts: seq<Csg>, s: Layers)
    requires Valid(s) && Spaced(s) && Tidy(s)
    ensures Tidy(PlaceAll(ts, s, true))
    decreases ts, 0
  {
    if ts != [] {
      var m := |ts| - 1;
      RaisedAllSpaced(ts[..m], s);
      RaisedAllTidy(ts[..m], s);
      RaisedTidy(ts[m], PlaceAll(ts[..m], s, true));
    }
  }

  /**
   * The corrected rule's promise about the returned positions: in the layout of any forest, two
   * different nodes of one column are at least one node height apart.
   */
  lemma RaisedNoOverlap(roots: seq<Csg>)
    ensures NoOverlap(Suggested(roots, true))
  {
    RaisedAllTidy(roots, Initial);
  }

  /** A primitive with key `k` and default settings. */
  function Leaf(k: nat): Csg {
    Prim(k, ZeroVec, ZeroVec, OneScalar, ZeroScalar, Sphere)
  }

  /** A union with key `k` and default settings. */
  function Join(k: nat, inputs: seq<Csg>): Csg {
    Op(k, ZeroVec, ZeroVec, OneScalar, ZeroScalar, Union, inputs)
  }

  /**
   * As written, an operator whose input layer already exists starts its inputs at that layer's
   * free slot even when it lies above the operator's own: in the forest below, the primitive 2
   * and the union 3 both land at (0, 200).  With the corrected rule the union goes to (0, 400).
   */
  lemma OverlapAsWritten()
    ensures var roots := [Join(0, [Leaf(1)]), Leaf(2), Join(3, [Leaf(4)])];
      var p := Suggested(roots, false);
      2 in p && 3 in p && p[2] == p[3] == Pos(0, 200) &&
      var q := Suggested(roots, true);
      2 in q && 3 in q && q[2] == Pos(0, 200) && q[3] == Pos(0, 400)
  {
    var start := [Join(0, [Leaf(1)]), Leaf(2)];
    assert start + [Join(3, [Leaf(4)])] == [Join(0, [Leaf(1)]), Leaf(2), Join(3, [Leaf(4)])];
    PlaceSnoc(start, Join(3, [Leaf(4)]), Initial, false);
    PlaceSnoc(start, Join(3, [Leaf(4)]), Initial, true);
    ExampleStart(false);
    ExampleStart(true);
    ExampleLast(PlaceAll(start, Initial, false), false);
    ExampleLast(PlaceAll(start, Initial, true), true);
  }

  /** Visiting one more tree after a sequence of trees. */
  lemma PlaceSnoc(ts: seq<Csg>, t: Csg, s: Layers, raise: bool)
    requires Valid(s)
    ensures PlaceAll(ts + [t], s, raise) == Place(t, PlaceAll(ts, s, raise), raise)
  {
    assert (ts + [t])[..|ts|] == ts;
  }

  /** The first two roots of the example, under either rule. */
  lemma ExampleStart(raise: bool)
    ensures var r := PlaceAll([Join(0, [Leaf(1)]), Leaf(2)], Initial, raise);
      r.stack == [[0, 200, 400], [0, 200]] && r.depth == 0 && 2 in r.positions &&
      r.positions[2] == Pos(0, 200) && 3 !in r.positions
  {
    var a := Join(0, [Leaf(1)]);
    PlaceTwo(a, Leaf(2), Initial, raise);
    ExampleFirst(raise);
    var s0 := Place(a, Initial, raise);
    var r := Settle(2, s0, 200);
    assert [0, 200][..1] + [200, 400] == [0, 200, 400];
    assert r.stack == [[0, 200, 400], [0, 200]];
  }

  /** Two trees visited in order. */
  lemma PlaceTwo(t: Csg, u: Csg, s: Layers, raise: bool)
    requires Valid(s)
    ensures PlaceAll([t, u], s, raise) == Place(u, Place(t, s, raise), raise)
  {
    assert [t, u][..1] == [t] && [t][..0] == [];
    assert PlaceAll([], s, raise) == s;
    assert PlaceAll([t], s, raise) == Place(t, s, raise);
  }

  /** The first root of the example opens layer 1 and leaves both layers' free slots at 200. */
  lemma ExampleFirst(raise: bool)
    ensures var r := Place(Join(0, [Leaf(1)]), Initial, raise);
      r.stack == [[0, 200], [0, 200]] && r.depth == 0 && r.positions.Keys == {0, 1}
  {
    var o := Open(Initial, raise);
    assert o == Layers(map[], [[0], [0]], 0);
    DescendOne(Leaf(1), o, raise);
    var i := Settle(1, o.(depth := 1), 0).(depth := 0);
    assert [0][..0] + [0, 200] == [0, 200];
    assert i.stack == [[0], [0]][1 := [0, 200]] == [[0], [0, 200]];
    assert Own(o, i, 1) == 0;
    var r := Settle(0, i, 0);
    assert r.stack == [[0], [0, 200]][0 := [0, 200]] == [[0, 200], [0, 200]];
    assert Place(Join(0, [Leaf(1)]), Initial, raise) == r;
  }

  /** The inputs of an operator that has one primitive input. */
  lemma DescendOne(t: Csg, s: Layers, raise: bool)
    requires Valid(s) && s.depth + 1 < |s.stack| && t.Prim?
    ensures Descend([t], s, raise) ==
      Settle(t.key, s.(depth := s.depth + 1), Last(s.stack[s.depth + 1])).(depth := s.depth)
  {
    var s1 := s.(depth := s.depth + 1);
    assert [t][..0] == [];
    assert PlaceAll([], s1, raise) == s1;
    assert PlaceAll([t], s1, raise) == Place(t, s1, raise);
  }

  /** The last root of the example, from the state the first two leave. */
  lemma ExampleLast(s: Layers, raise: bool)
    requires s.stack == [[0, 200, 400], [0, 200]] && s.depth == 0 && 2 in s.positions
    requires s.positions[2] == Pos(0, 200) && 3 !in s.positions
    ensures var r := Place(Join(3, [Leaf(4)]), s, raise);
      2 in r.positions && r.positions[2] == Pos(0, 200) && 3 in r.positions &&
      r.positions[3] == Pos(0, if raise then 400 else 200)
  {
    var o := Open(s, raise);
    var y := if raise then 400 else 200;
    assert Last(o.stack[1]) == y && o.positions == s.positions && o.depth == 0;
    DescendOne(Leaf(4), o, raise);
    var i := Settle(4, o.(depth := 1), y).(depth := 0);
    assert i.stack[1][|o.stack[1]| - 1] == y && |i.stack[1]| == |o.stack[1]| + 1;
    assert 3 !in i.positions && i.positions[2] == Pos(0, 200);
    assert Own(o, i, 1) == y;
  }

  class LayoutCalculator {
    var positions: map<nat, Pos>
    var heightStack: seq<seq<int>>
    var depth: int

    function Value(): Layers
      reads this
    {
      Layers(positions, heightStack, depth)
    }

    constructor()
      ensures Value() == Layers(map[], [], 0)
    {
      positions := map[];
      heightStack := [];
      depth := 0;
    }

    /** Visit one node (its `visit` dispatches on the node's kind). */
    method Visit(t: Csg)
      requires Valid(Value())
      modifies this
      ensures Value() == Place(t, old(Value()), false)
      decreases t, 2
    {
      match t
      case Prim(_, _, _, _, _, _) => VisitPrimitive(t);
      case Op(_, _, _, _, _, _, _) => VisitOperator(t);
    }

    /** A primitive takes its layer's free slot. */
    method VisitPrimitive(t: Csg)
      requires t.Prim? && Valid(Value())
      modifies this
      ensures Value() == Place(t, old(Value()), false)
    {
      var verticalPosition := Last(heightStack[depth]);
      positions := Emplace(positions, t.key, Pos(ColumnWidth * -depth, verticalPosition));
      heightStack := heightStack[depth := heightStack[depth] + [verticalPosition + NodeHeight]];
      ghost var layer := old(heightStack[depth]);
      assert layer == layer[..|layer| - 1] + [verticalPosition];
      assert layer + [verticalPosition + NodeHeight]
        == layer[..|layer| - 1] + [verticalPosition, verticalPosition + NodeHeight];
    }

    /** An operator visits its inputs one layer deeper and is centred on their slots. */
    method VisitOperator(t: Csg)
      requires t.Op? && Valid(Value())
      modifies this
      ensures Value() == Place(t, old(Value()), false)
      decreases t, 1
    {
      OpenLayer();
      ghost var s1 := Value();
      var firstIdx := |heightStack[depth + 1]| - 1;
      var ownVerticalPosition;
      if |t.inputs| == 0 {
        ownVerticalPosition := Last(heightStack[depth]);
        assert Value() == Descend(t.inputs, s1, false);
      } else {
        depth := depth + 1;
        VisitInputs(t);
        depth := depth - 1;
        assert Value() == Descend(t.inputs, s1, false);
        var lastIdx := |heightStack[depth + 1]| - 2;
        var next := heightStack[depth + 1];
        if (lastIdx - firstIdx + 1) % 2 == 0 {
          ownVerticalPosition := Half(next[(lastIdx + firstIdx) / 2] + next[(lastIdx + firstIdx + 1) / 2]);
        } else {
          ownVerticalPosition := next[(lastIdx + firstIdx) / 2];
        }
      }
      Record(t.key, ownVerticalPosition);
    }

    /** The first node of a new layer opens it at the current layer's free slot. */
    method OpenLayer()
      requires Valid(Value())
      modifies this
      ensures Value() == Open(old(Value()), false)
    {
      if |heightStack| == depth + 1 {
        heightStack := heightStack + [[Last(heightStack[depth])]];
      }
    }

    /** Save a node's position and move its layer's free slot one node height past it. */
    method Record(key: nat, y: int)
      requires Valid(Value())
      modifies this
      ensures Value() == Settle(key, old(Value()), y)
    {
      positions := Emplace(positions, key, Pos(ColumnWidth * -depth, y));
      var layer := heightStack[depth];
      heightStack := heightStack[depth := layer[..|layer| - 1] + [y]];
      heightStack := heightStack[depth := heightStack[depth] + [y + NodeHeight]];
      assert layer[..|layer| - 1] + [y] + [y + NodeHeight] == layer[..|layer| - 1] + [y, y + NodeHeight];
    }

    /** The input loop of an operator visit, run one layer below the operator. */
    method VisitInputs(t: Csg)
      requires t.Op? && Valid(Value())
      modifies this
      ensures Value() == PlaceAll(t.inputs, old(Value()), false)
      decreases t, 0
    {
      ghost var s0 := Value();
      for i := 0 to |t.inputs|
        invariant Valid(Value()) && Value() == PlaceAll(t.inputs[..i], s0, false)
      {
        assert t.inputs[..i + 1][..i] == t.inputs[..i];
        Visit(t.inputs[i]);
      }
      assert t.inputs[..|t.inputs|] == t.inputs;
    }

    /** Lay out a forest from scratch and return the suggested positions. */
    method CalculateLayout(roots: seq<Csg>) returns (r: map<nat, Pos>)
      modifies this
      ensures r == Suggested(roots, false) && Value() == PlaceAll(roots, Initial, false)
    {
      positions := map[];
      heightStack := [];
      depth := 0;
      heightStack := heightStack + [[0]];
      for i := 0 to |roots|
        invariant Valid(Value()) && Value() == PlaceAll(roots[..i], Initial, false)
      {
        assert roots[..i + 1][..i] == roots[..i];
        Visit(roots[i]);
      }
      assert roots[..|roots|] == roots;
      r := positions;
    }
  }
}
