/**
 * The CSG graph (Node.h, Node.cpp).  A node is either an operator node, which combines the
 * distances of its ordered inputs, or a primitive node, which evaluates one primitive shape.
 * Both kinds share the transform fields and the two per-node scratch fields the visitors use
 * (`flag` for the cycle checker, `traversalId` for the shader generator).
 *
 * The two node kinds are one class here, told apart by the constant `isOperator`; the fields of
 * the other kind keep their defaults and only operator nodes have inputs.
 */
module Nodes {
  import opened Wrappers
  import opened Operators

  /** A float of the editor, kept as the text it prints as and whether it compares equal to 0. */
  datatype Scalar = Scalar(text: string, isZero: bool)

  const ZeroScalar := Scalar("0", true)
  const OneScalar := Scalar("1", false)

  datatype Vec3 = Vec3(x: Scalar, y: Scalar, z: Scalar)

  const ZeroVec := Vec3(ZeroScalar, ZeroScalar, ZeroScalar)

  /**
   * A primitive shape.  Every shape but the sphere prints float parameters; for those the model
   * keeps the printed call up to the sample coordinate.
   */
  datatype Primitive = Sphere | Shape(name: string, head: string)

  /** The distance call a primitive writes for the sample coordinate variable `coord`. */
  function PrimitiveCall(p: Primitive, coord: string): string {
    match p
    case Sphere => "sphere(0.5f, " + coord + ")"
    case Shape(_, head) => head + coord + ")"
  }

  /** A handle to the editor's node widget, which is not part of this model. */
  type GuiHandle = nat

  /** The index of the first occurrence of `x` in `s`. */
  function FirstIndex<T(==)>(s: seq<T>, x: T): (i: nat)
    requires x in s
    ensures i < |s| && s[i] == x && x !in s[..i]
  {
    if s[0] == x then 0 else assert x in s[1..]; 1 + FirstIndex(s[1..], x)
  }

  class Node {
    const isOperator: bool
    var translate: Vec3
    /** Euler angles in degrees around the x, y and z axes. */
    var rotate: Vec3
    var scale: Scalar
    /** Also known as the offset. */
    var radius: Scalar
    var guiNode: Option<GuiHandle>
    var flag: int
    var traversalId: int
    var operatorIdx: nat
    var operatorDescription: Operator
    var primitiveIdx: nat
    var primitive: Primitive
    var inputs: seq<Node>

    /** Only operator nodes have inputs. */
    predicate Valid()
      reads this`inputs
    {
      !isOperator ==> inputs == []
    }

    /** The state shared by freshly created nodes of both kinds. */
    predicate Defaults()
      reads this
    {
      translate == ZeroVec && rotate == ZeroVec && scale == OneScalar && radius == ZeroScalar &&
      guiNode == None && flag == 0 && traversalId == -1
    }

    /** A new operator node: a union with no inputs. */
    constructor CreateOperator()
      ensures isOperator && Defaults() && Valid()
      ensures inputs == [] && operatorIdx == 0 && operatorDescription == Union
    {
      isOperator := true;
      translate, rotate, scale, radius := ZeroVec, ZeroVec, OneScalar, ZeroScalar;
      guiNode, flag, traversalId := None, 0, -1;
      operatorIdx, operatorDescription := 0, Union;
      primitiveIdx, primitive := 0, Sphere;
      inputs := [];
    }

    /** A new primitive node: a sphere. */
    constructor CreatePrimitive()
      ensures !isOperator && Defaults() && Valid()
      ensures primitiveIdx == 0 && primitive == Sphere
    {
      isOperator := false;
      translate, rotate, scale, radius := ZeroVec, ZeroVec, OneScalar, ZeroScalar;
      guiNode, flag, traversalId := None, 0, -1;
      operatorIdx, operatorDescription := 0, Union;
      primitiveIdx, primitive := 0, Sphere;
      inputs := [];
    }

    function InputCount(): nat
      reads this
    {
      |inputs|
    }

    function FirstInput(): Node
      reads this
      requires |inputs| > 0
    {
      inputs[0]
    }

    function Input(idx: int): Node
      reads this
      requires 0 <= idx < |inputs|
    {
      inputs[idx]
    }

    /** Appends `node` as the last input. */
    method AddInputBack(node: Node)
      requires isOperator
      modifies this`inputs
      ensures inputs == old(inputs) + [node]
      ensures InputCount() == old(InputCount()) + 1 && Input(InputCount() - 1) == node
      ensures old(InputCount()) > 0 ==> FirstInput() == old(FirstInput())
    {
      inputs := inputs + [node];
    }

    /** Drops the last input. */
    method RemoveLastInput()
      requires isOperator && |inputs| > 0
      modifies this`inputs
      ensures inputs == old(inputs)[..|old(inputs)| - 1]
    {
      inputs := inputs[..|inputs| - 1];
    }

    method ClearInputs()
      requires isOperator
      modifies this`inputs
      ensures inputs == [] && InputCount() == 0
    {
      inputs := [];
    }

    /** Replaces the whole input list. */
    method UpdateInputs(newInputList: seq<Node>)
      requires isOperator
      modifies this`inputs
      ensures inputs == newInputList
    {
      inputs := newInputList;
    }

    /**
     * Erases the first input that is the same object as `node`; the other inputs keep their
     * order.  The node must be an input: erasing at the end position is undefined.
     */
    method RemoveInput(node: Node)
      requires isOperator && node in inputs
      modifies this`inputs
      ensures var i := FirstIndex(old(inputs), node); inputs == old(inputs)[..i] + old(inputs)[i + 1..]
      ensures |inputs| == |old(inputs)| - 1
      ensures multiset(inputs) == multiset(old(inputs)) - multiset{node}
    {
      var i := 0;
      while inputs[i] != node
        invariant 0 <= i <= FirstIndex(inputs, node)
        invariant node !in inputs[..i]
        decreases |inputs| - i
      {
        i := i + 1;
      }
      ghost var before := inputs;
      assert before == before[..i] + [node] + before[i + 1..];
      inputs := inputs[..i] + inputs[i + 1..];
    }

    /**
     * A copy of the node's own settings as a new object: transform, kind, index and description
     * or shape.  The copy has no inputs and no widget, and fresh scratch fields.
     */
    method Clone() returns (c: Node)
      ensures fresh(c)
      ensures c.isOperator == isOperator && c.Valid()
      ensures c.translate == translate && c.rotate == rotate && c.scale == scale && c.radius == radius
      ensures c.guiNode == None && c.inputs == [] && c.flag == 0 && c.traversalId == -1
      ensures isOperator ==> c.operatorIdx == operatorIdx && c.operatorDescription == operatorDescription
      ensures !isOperator ==> c.primitiveIdx == primitiveIdx && c.primitive == primitive
    {
      if isOperator {
        c := new Node.CreateOperator();
        c.operatorIdx := operatorIdx;
        c.operatorDescription := operatorDescription;
      } else {
        c := new Node.CreatePrimitive();
        c.primitiveIdx := primitiveIdx;
        c.primitive := primitive;
      }
      c.translate := translate;
      c.rotate := rotate;
      c.scale := scale;
      c.radius := radius;
      c.guiNode := None;
    }
  }

  /** Adding an input and removing the last one leaves the input list as it was. */
  method AddThenRemove(op: Node, node: Node)
    requires op.isOperator
    modifies op`inputs
    ensures op.inputs == old(op.inputs)
  {
    op.AddInputBack(node);
    assert op.inputs[..|op.inputs| - 1] == old(op.inputs);
    op.RemoveLastInput();
  }
}
