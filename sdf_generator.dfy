/**
 * The scalar signed-distance generator (SDFGenerator.cpp): a post-order traversal of the CSG
 * graph that writes one GLSL assignment per node into numbered `float` registers.  Registers are
 * handed out by a last-in first-out allocator; an operator reuses its first input's register
 * for its own result and frees the registers of its other inputs.
 *
 * The graph is taken as a value here: a tree of nodes, each with a key standing for the node's
 * identity.  The per-node traversal id lives in a map from keys (a missing key is unassigned).
 * Transforms are kept symbolically, and the printed columns of a transform's inverse are a
 * parameter of the generator.
 */
module SdfGen {
  import opened Wrappers
  import opened Text
  import opened Operators
  import opened Nodes
  import opened Trees
  import Templates

  /** An abandoned generation: why, and at which node (by key). */
  datatype GenError = GenError(reason: Reason, source: nat)

  /**
   * A transform matrix, kept as the chain of placements that built it: an operator's placement
   * includes its scale, a primitive's does not (the primitive divides by its scale instead).
   */
  datatype Transform = Identity | Moved(outer: Transform, translate: Vec3, rotate: Vec3, scale: Option<Scalar>)

  /** The four printed columns of a matrix. */
  datatype Columns = Columns(c0: string, c1: string, c2: string, c3: string)

  const NotAssigned := -1

  /**
   * The generator's state taken as a value: the code written so far, the register counter, the
   * free registers (most recently freed last), the number of declared registers, whether the
   * sampling variables are declared, the traversal ids and the transform stack.
   */
  datatype Gen = Gen(
    code: string, next: int, free: seq<int>, count: int, createdInv: bool,
    ids: map<nat, int>, stack: seq<Transform>)

  /** The traversal id of the node with key `k`. */
  function Id(ids: map<nat, int>, k: nat): int {
    if k in ids then ids[k] else NotAssigned
  }

  /** Decimal text of an integer, as `std::to_string` prints it. */
  function IntToString(i: int): string {
    if i < 0 then "-" + NatToString(-i) else NatToString(i)
  }

  /**
   * The generator's fixed spellings (the names of the inverse matrix, of the transformed and the
   * original sample coordinate, and the register prefix) and the printer of a transform's
   * inverse columns.
   */
  datatype Env = Env(inv: string, transf: string, sample: string, prefix: string,
                     columns: Transform -> Columns)

  function RegName(e: Env, r: int): string {
    e.prefix + IntToString(r)
  }

  /** The offset correction, written only for a non-zero radius. */
  function Offset(radius: Scalar): string {
    if radius.isZero then "" else " - " + radius.text
  }

  /** The declarations of the inverse matrix and the transformed sample coordinate. */
  function InvDeclarations(e: Env): string {
    "mat4 " + e.inv + ";\n" + "vec3 " + e.transf + ";\n"
  }

  /** Loading the inverse transform and moving the sample point into the primitive's frame. */
  function SampleLines(e: Env, cols: Columns, scale: Scalar): string {
    e.inv + "[0] = " + cols.c0 + ";\n" + e.inv + "[1] = " + cols.c1 + ";\n" +
    e.inv + "[2] = " + cols.c2 + ";\n" + e.inv + "[3] = " + cols.c3 + ";\n" +
    e.transf + " = " + "(" + e.inv + " * vec4(" + e.sample + ",1)).xyz / " + scale.text + ";\n"
  }

  function Declaration(e: Env, r: int): string {
    "float " + RegName(e, r) + ";\n"
  }

  function PrimitiveLine(e: Env, r: int, p: Csg): string
    requires p.Prim?
  {
    RegName(e, r) + " = (r_" + PrimitiveCall(p.shape, e.transf) + Offset(p.radius) + ") * " + p.scale.text + ";\n"
  }

  /** The most recently freed register if there is one, otherwise a new one. */
  function Allocate(g: Gen): (int, Gen) {
    if |g.free| > 0 then (g.free[|g.free| - 1], g.(free := g.free[..|g.free| - 1]))
    else (g.next, g.(next := g.next + 1))
  }

  function Top(g: Gen): Transform
    requires |g.stack| > 0
  {
    g.stack[|g.stack| - 1]
  }

  /**
   * Declares the inverse matrix and the transformed sample coordinate on first use, loads the
   * inverse columns and moves the sample point.
   */
  function Sampling(g: Gen, e: Env, columns: Columns, scale: Scalar): Gen {
    var c1 := if g.createdInv then g.code else g.code + InvDeclarations(e);
    g.(code := c1 + SampleLines(e, columns, scale), createdInv := true)
  }

  /** Declares register `r` if it was never used and writes the primitive's distance into it. */
  function Distance(g: Gen, e: Env, r: int, p: Csg): Gen
    requires p.Prim?
  {
    var declared := r == g.count;
    var c1 := if declared then g.code + Declaration(e, r) else g.code;
    g.(code := c1 + PrimitiveLine(e, r, p), count := if declared then g.count + 1 else g.count)
  }

  /** A primitive takes a register, declaring it if it is new, and writes its distance into it. */
  function EmitPrimitive(p: Csg, g: Gen, e: Env): (h: Gen)
    requires p.Prim? && |g.stack| > 0
  {
    var (r, g1) := Allocate(g);
    var columns := e.columns(Moved(Top(g), p.translate, p.rotate, None));
    Distance(Sampling(g1.(ids := g.ids[p.key := r]), e, columns, p.scale), e, r, p)
  }

  /** The register names of the inputs, in input order. */
  function InputNames(e: Env, ins: seq<Csg>, ids: map<nat, int>): (names: seq<string>)
    ensures |names| == |ins|
    ensures forall i :: 0 <= i < |ins| ==> names[i] == RegName(e, Id(ids, ins[i].key))
  {
    seq(|ins|, i requires 0 <= i < |ins| => RegName(e, Id(ids, ins[i].key)))
  }

  /** Frees the registers of `ins` in order and unassigns their traversal ids. */
  function FreeInputs(g: Gen, ins: seq<Csg>): (h: Gen)
    ensures h.code == g.code && h.next == g.next && h.count == g.count && h.createdInv == g.createdInv
    ensures h.stack == g.stack
    decreases |ins|
  {
    if ins == [] then g
    else
      var h := FreeInputs(g, ins[..|ins| - 1]);
      var k := ins[|ins| - 1].key;
      h.(free := h.free + [Id(h.ids, k)], ids := h.ids[k := NotAssigned])
  }

  /** The operator takes over its first input's register as its own traversal id. */
  function Claim(t: Csg, g: Gen): Gen
    requires t.Op? && |t.inputs| > 0
  {
    g.(ids := g.ids[t.key := Id(g.ids, t.inputs[0].key)])
  }

  /** Frees the registers of all inputs but the first and unassigns every input. */
  function Release(t: Csg, g: Gen): Gen
    requires t.Op? && |t.inputs| > 0
  {
    var h := FreeInputs(g, t.inputs[1..]);
    h.(ids := h.ids[t.inputs[0].key := NotAssigned])
  }

  /**
   * The part of an operator's visit after its inputs: pop the transform, take over the first
   * input's register, write the combination, free the other inputs' registers.
   */
  function Finish(t: Csg, g: Gen, e: Env): (r: Result<Gen, GenError>)
    requires t.Op? && |t.inputs| > 0 && |g.stack| > 0
    ensures r.Success? ==> r.value.stack == g.stack[..|g.stack| - 1]
  {
    var g1 := Claim(t, g.(stack := g.stack[..|g.stack| - 1]));
    var started := g1.code + RegName(e, Id(g1.ids, t.key)) + " = (";
    match OperatorText(t.description, InputNames(e, t.inputs, g1.ids))
    case Failure(reason) => Failure(GenError(reason, t.key))
    case Success(text) =>
      Success(Release(t, g1.(code := started + text + ") * " + t.scale.text + Offset(t.radius) + ";\n")))
  }

  /** The transform an operator pushes for its inputs. */
  function Push(t: Csg, g: Gen): Gen
    requires t.Op? && |g.stack| > 0
  {
    g.(stack := g.stack + [Moved(Top(g), t.translate, t.rotate, Some(t.scale))])
  }

  /**
   * The reference meaning of visiting a node: the state after the visit, or the error that
   * stopped it.  The transform stack comes back as it was.
   */
  function Emit(t: Csg, g: Gen, e: Env): (r: Result<Gen, GenError>)
    requires |g.stack| > 0
    ensures r.Success? ==> r.value.stack == g.stack
    decreases t, 1
  {
    match t
    case Prim(_, _, _, _, _, _) => Success(EmitPrimitive(t, g, e))
    case Op(_, _, _, _, _, _, inputs) =>
      if |inputs| == 0 then Failure(GenError(OperatorHasNoInputs, t.key))
      else
        match EmitInputs(inputs, Push(t, g), e)
        case Failure(err) => Failure(err)
        case Success(g1) => Finish(t, g1, e)
  }

  /** Visiting the nodes of `ts` in order, stopping at the first error. */
  function EmitInputs(ts: seq<Csg>, g: Gen, e: Env): (r: Result<Gen, GenError>)
    requires |g.stack| > 0
    ensures r.Success? ==> r.value.stack == g.stack
    decreases ts, 0
  {
    if ts == [] then Success(g)
    else
      match EmitInputs(ts[..|ts| - 1], g, e)
      case Failure(err) => Failure(err)
      case Success(h) => Emit(ts[|ts| - 1], h, e)
  }

  /** The state a generation starts from: the function header written, registers reset. */
  function Start(g: Gen): Gen {
    g.(code := g.code + "float sdf(vec3 pos) {\n", next := 0, free := [], createdInv := false,
       stack := [Identity])
  }

  /** The function's last line, returning the root's register. */
  function ReturnLine(e: Env, r: int): string {
    "return " + RegName(e, r) + ";\n}\n"
  }

  /** The distance function's text before templating, or the error that stopped it. */
  function SdfText(root: Csg, g: Gen, e: Env): Result<string, GenError> {
    match Emit(root, Start(g), e)
    case Failure(err) => Failure(err)
    case Success(h) => Success(h.code + ReturnLine(e, Id(h.ids, root.key)))
  }

  /** The whole function text of a fresh generation, or the error that stopped it. */
  function Generate(root: Csg, g: Gen, e: Env): Result<string, GenError> {
    match SdfText(root, g, e)
    case Failure(err) => Failure(err)
    case Success(text) => Success(Templates.Instantiate(text, false))
  }

  /** A visit's outcome in the shape of the reference. */
  function Outcome(err: Option<GenError>, g: Gen): Result<Gen, GenError> {
    if err.Some? then Failure(err.value) else Success(g)
  }

  lemma {:induction false} InputsFailure(ts: seq<Csg>, i: nat, g: Gen, e: Env)
    requires |g.stack| > 0 && i <= |ts| && EmitInputs(ts[..i], g, e).Failure?
    ensures EmitInputs(ts, g, e) == EmitInputs(ts[..i], g, e)
    decreases |ts| - i
  {
    if i < |ts| {
      assert ts[..i + 1][..i] == ts[..i];
      InputsFailure(ts, i + 1, g, e);
    } else {
      assert ts[..i] == ts;
    }
  }

  class SdfGenerator {
    var code: string
    var nextRegister: int
    var freeRegisters: seq<int>
    var transformStack: seq<Transform>
    var createdInvVar: bool
    var createdTempVec3: bool
    var registerCount: int
    /** The traversal id of each node, by key. */
    var traversalIds: map<nat, int>
    const invTransformVarName: string
    const transfSampleCoordName: string
    const sampleCoordName: string
    const regNamePrefix: string
    /** The printed columns of the inverse of a transform. */
    const inverseColumns: Transform -> Columns

    constructor (inverseColumns: Transform -> Columns)
      ensures Setup() == Env("inv", "posTransf", "pos", "var", inverseColumns)
      ensures code == "" && nextRegister == 0 && freeRegisters == [] && transformStack == []
      ensures !createdInvVar && !createdTempVec3 && registerCount == 0 && traversalIds == map[]
    {
      invTransformVarName := "inv";
      transfSampleCoordName := "posTransf";
      sampleCoordName := "pos";
      regNamePrefix := "var";
      this.inverseColumns := inverseColumns;
      code := "";
      nextRegister := 0;
      freeRegisters := [];
      transformStack := [];
      createdInvVar := false;
      createdTempVec3 := false;
      registerCount := 0;
      traversalIds := map[];
    }

    /** The generator's fixed spellings and inverse printer. */
    function Setup(): Env {
      Env(invTransformVarName, transfSampleCoordName, sampleCoordName, regNamePrefix, inverseColumns)
    }

    function Value(): Gen
      reads this
    {
      Gen(code, nextRegister, freeRegisters, registerCount, createdInvVar, traversalIds, transformStack)
    }

    /** Reissues the most recently freed register, otherwise a new one from the counter. */
    method AllocateRegister() returns (r: int)
      modifies this`nextRegister, this`freeRegisters
      ensures (r, Value()) == Allocate(old(Value()))
    {
      if |freeRegisters| > 0 {
        r := freeRegisters[|freeRegisters| - 1];
        freeRegisters := freeRegisters[..|freeRegisters| - 1];
        return;
      }
      r := nextRegister;
      nextRegister := nextRegister + 1;
    }

    method FreeRegister(id: int)
      modifies this`freeRegisters
      ensures freeRegisters == old(freeRegisters) + [id]
    {
      freeRegisters := freeRegisters + [id];
    }

    /** Dispatches a node to the operator or the primitive visit. */
    method Visit(t: Csg) returns (err: Option<GenError>)
      requires |transformStack| > 0
      modifies this
      ensures Outcome(err, Value()) == Emit(t, old(Value()), Setup())
      decreases t, 2
    {
      if t.Op? {
        err := VisitOperator(t);
      } else {
        VisitPrimitive(t);
        err := None;
      }
    }

    /** Writes a primitive's distance into a freshly allocated register. */
    method VisitPrimitive(p: Csg)
      requires p.Prim? && |transformStack| > 0
      modifies this
      ensures Value() == EmitPrimitive(p, old(Value()), Setup())
    {
      var columns := inverseColumns(Moved(transformStack[|transformStack| - 1], p.translate, p.rotate, None));
      var reg := AllocateRegister();
      traversalIds := traversalIds[p.key := reg];
      WriteSampling(columns, p.scale);
      WriteDistance(reg, p);
    }

    method WriteSampling(columns: Columns, scale: Scalar)
      modifies this`code, this`createdInvVar
      ensures Value() == Sampling(old(Value()), Setup(), columns, scale)
    {
      if !createdInvVar {
        code := code + InvDeclarations(Setup());
        createdInvVar := true;
      }
      code := code + SampleLines(Setup(), columns, scale);
    }

    method WriteDistance(reg: int, p: Csg)
      requires p.Prim?
      modifies this`code, this`registerCount
      ensures Value() == Distance(old(Value()), Setup(), reg, p)
    {
      if reg == registerCount {
        registerCount := registerCount + 1;
        code := code + Declaration(Setup(), reg);
      }
      code := code + PrimitiveLine(Setup(), reg, p);
    }

    /**
     * Visits an operator: rejects one without inputs, visits the inputs under its transform,
     * then writes the combination into the first input's register.
     */
    method VisitOperator(t: Csg) returns (err: Option<GenError>)
      requires t.Op? && |transformStack| > 0
      modifies this
      ensures Outcome(err, Value()) == Emit(t, old(Value()), Setup())
      ensures |t.inputs| == 0 ==> Value() == old(Value())
      decreases t, 1
    {
      if |t.inputs| < 1 {
        return Some(GenError(OperatorHasNoInputs, t.key));
      }
      transformStack := transformStack + [Moved(transformStack[|transformStack| - 1], t.translate, t.rotate, Some(t.scale))];
      assert Value() == Push(t, old(Value()));
      err := VisitInputs(t.inputs);
      if err.Some? {
        return;
      }
      err := Combine(t);
    }

    /** Visits the nodes of `ts` in order, stopping at the first error. */
    method VisitInputs(ts: seq<Csg>) returns (err: Option<GenError>)
      requires |transformStack| > 0
      modifies this
      ensures Outcome(err, Value()) == EmitInputs(ts, old(Value()), Setup())
      decreases ts, 3
    {
      ghost var g := Value();
      var i := 0;
      while i < |ts|
        invariant 0 <= i <= |ts|
        invariant EmitInputs(ts[..i], g, Setup()) == Success(Value())
      {
        assert ts[..i + 1][..i] == ts[..i];
        err := Visit(ts[i]);
        if err.Some? {
          InputsFailure(ts, i + 1, g, Setup());
          return;
        }
        i := i + 1;
      }
      assert ts[..i] == ts;
      err := None;
    }

    /** The register names the operator combines: its own (the first input's), then the others. */
    method InputRegisters(t: Csg, regName: string) returns (names: seq<string>)
      requires t.Op? && |t.inputs| > 0 && regName == RegName(Setup(), Id(traversalIds, t.inputs[0].key))
      ensures names == InputNames(Setup(), t.inputs, traversalIds)
    {
      names := [regName];
      var i := 1;
      while i < |t.inputs|
        invariant 1 <= i <= |t.inputs|
        invariant names == InputNames(Setup(), t.inputs[..i], traversalIds)
      {
        names := names + [regNamePrefix + IntToString(Id(traversalIds, t.inputs[i].key))];
        i := i + 1;
      }
      assert t.inputs[..i] == t.inputs;
    }

    /** Frees the registers of all inputs but the first and unassigns their traversal ids. */
    method FreeOtherInputs(t: Csg)
      requires t.Op? && |t.inputs| > 0
      modifies this`freeRegisters, this`traversalIds
      ensures Value() == FreeInputs(old(Value()), t.inputs[1..])
    {
      ghost var g := Value();
      var i := 1;
      while i < |t.inputs|
        invariant 1 <= i <= |t.inputs|
        invariant Value() == FreeInputs(g, t.inputs[1..i])
      {
        assert t.inputs[1..i + 1][..i - 1] == t.inputs[1..i];
        var k := t.inputs[i].key;
        FreeRegister(Id(traversalIds, k));
        traversalIds := traversalIds[k := NotAssigned];
        i := i + 1;
      }
      assert t.inputs[1..i] == t.inputs[1..];
    }

    /** The operator's own line, written after its inputs have been visited. */
    method Combine(t: Csg) returns (err: Option<GenError>)
      requires t.Op? && |t.inputs| > 0 && |transformStack| > 0
      modifies this
      ensures Outcome(err, Value()) == Finish(t, old(Value()), Setup())
    {
      transformStack := transformStack[..|transformStack| - 1];
      var reg := Id(traversalIds, t.inputs[0].key);
      traversalIds := traversalIds[t.key := reg];
      var regName := regNamePrefix + IntToString(reg);
      var names := InputRegisters(t, regName);
      err := WriteCombination(t, regName, names);
      if err.Some? {
        return;
      }
      FreeOtherInputs(t);
      traversalIds := traversalIds[t.inputs[0].key := NotAssigned];
    }

    /**
     * Writes `regName = (<combination>) * scale - radius;`, the offset only for a non-zero
     * radius; an operator that cannot combine these inputs stops the line after its start.
     */
    method WriteCombination(t: Csg, regName: string, names: seq<string>) returns (err: Option<GenError>)
      requires t.Op? && |names| > 0
      modifies this`code
      ensures OperatorText(t.description, names).Failure? ==>
        err == Some(GenError(OperatorText(t.description, names).error, t.key)) &&
        code == old(code) + regName + " = ("
      ensures OperatorText(t.description, names).Success? ==>
        err == None &&
        code == old(code) + regName + " = (" + OperatorText(t.description, names).value + ") * " +
                t.scale.text + Offset(t.radius) + ";\n"
    {
      code := code + regName + " = (";
      var text := GenerateShader(t.description, names);
      if text.Failure? {
        return Some(GenError(text.error, t.key));
      }
      code := code + text.value + ") * " + t.scale.text;
      if !t.radius.isZero {
        code := code + (" - " + t.radius.text);
      }
      code := code + ";\n";
      err := None;
    }

    /**
     * Generates the distance function of the tree under `root` and instantiates the primitive
     * library's placeholders in it.  The generator must be fresh: the code buffer is never
     * emptied and the declared-register count never reset.
     */
    method GenerateFromRoot(root: Csg) returns (r: Result<string, GenError>)
      requires code == "" && registerCount == 0
      modifies this
      ensures r == Generate(root, old(Value()), Setup())
      ensures r.Success? ==> transformStack == [] && Id(traversalIds, root.key) == NotAssigned
    {
      var body := WriteFunction(root);
      if body.Failure? {
        return Failure(body.error);
      }
      var text := Templates.GenerateFromTemplate(body.value, false);
      r := Success(text);
    }

    /** Writes the distance function of the tree under `root` and returns the code written. */
    method WriteFunction(root: Csg) returns (r: Result<string, GenError>)
      modifies this
      ensures r == SdfText(root, old(Value()), Setup())
      ensures r.Success? ==> transformStack == [] && Id(traversalIds, root.key) == NotAssigned
      ensures r.Success? ==> r.value == code
    {
      Begin();
      var err := Visit(root);
      if err.Some? {
        return Failure(err.value);
      }
      End(root);
      r := Success(code);
    }

    /** Resets the registers and the transform stack and writes the function header. */
    method Begin()
      modifies this
      ensures Value() == Start(old(Value()))
    {
      createdInvVar := false;
      createdTempVec3 := false;
      nextRegister := 0;
      freeRegisters := [];
      transformStack := [Identity];
      code := code + "float sdf(vec3 pos) {\n";
    }

    /** Pops the identity, returns the root's register and unassigns the root. */
    method End(root: Csg)
      requires |transformStack| > 0
      modifies this`transformStack, this`code, this`traversalIds
      ensures transformStack == old(transformStack)[..|old(transformStack)| - 1]
      ensures code == old(code) + ReturnLine(Setup(), Id(old(traversalIds), root.key))
      ensures traversalIds == old(traversalIds)[root.key := NotAssigned]
    {
      transformStack := transformStack[..|transformStack| - 1];
      code := code + "return " + (regNamePrefix + IntToString(Id(traversalIds, root.key))) + ";\n}\n";
      traversalIds := traversalIds[root.key := NotAssigned];
    }
  }
}
