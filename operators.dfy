/**
 * The CSG operators of the editor (Operator.cpp): each one writes the GLSL expression that
 * combines the distances held in its input registers.  The three exact operators fold any
 * number of inputs into a left-nested chain of binary calls; the three smooth operators take
 * exactly two inputs and a blending factor.
 */
module Operators {
  import opened Wrappers
  import opened Text

  /** Why the code generation of an operator (or of an operator node) was abandoned. */
  datatype Reason = OperatorHasNoInputs | SmoothOperatorNeedsExactlyTwoInputs

  /**
   * The operator descriptions.  The blending factor `k` of a smooth operator is a float; the
   * model keeps only the text it prints as.
   */
  datatype Operator =
    | Union
    | Intersection
    | Substraction
    | SmoothUnion(k: string)
    | SmoothIntersection(k: string)
    | SmoothSubstraction(k: string)
  {
    predicate IsSmooth() {
      SmoothUnion? || SmoothIntersection? || SmoothSubstraction?
    }
  }

  /** What closes one binary step whose second argument is `name` (negated for a subtraction). */
  function Closer(name: string, neg: bool): string {
    if neg then ", _neg_(" + name + "))" else ", " + name + ")"
  }

  /**
   * The reference meaning of an exact operator over `names`: the left-nested chain
   * fn(...fn(fn(n0, n1), n2)..., nk), where a subtraction negates every input after the first.
   */
  function Nested(open: string, names: seq<string>, neg: bool): string
    requires |names| > 0
    decreases |names|
  {
    if |names| == 1 then names[0]
    else open + Nested(open, names[..|names| - 1], neg) + Closer(names[|names| - 1], neg)
  }

  /** What the second loop of an exact operator writes for each input after the first. */
  function Closers(names: seq<string>, neg: bool): string
    decreases |names|
  {
    if |names| == 0 then ""
    else Closers(names[..|names| - 1], neg) + Closer(names[|names| - 1], neg)
  }

  lemma {:induction false} RepeatFront(s: string, n: nat)
    requires n > 0
    ensures Repeat(s, n) == s + Repeat(s, n - 1)
    decreases n
  {
    if n > 1 {
      RepeatFront(s, n - 1);
      AppendAssoc(s, Repeat(s, n - 2), s);
    }
  }

  /**
   * The flat text the emitter writes (all openings, the first name, then one closing per
   * further name) is the left-nested chain.
   */
  lemma {:induction false} FlatIsNested(open: string, names: seq<string>, neg: bool)
    requires |names| > 0
    ensures Repeat(open, |names| - 1) + names[0] + Closers(names[1..], neg) == Nested(open, names, neg)
    decreases |names|
  {
    var n := |names|;
    if n > 1 {
      var init := names[..n - 1];
      var tail := Closer(names[n - 1], neg);
      var rest := Closers(init[1..], neg);
      FlatIsNested(open, init, neg);
      assert init[0] == names[0];
      assert names[1..][..n - 2] == init[1..];
      assert Closers(names[1..], neg) == rest + tail;
      RepeatFront(open, n - 1);
      var inner := Repeat(open, n - 2) + names[0] + rest;
      assert inner == Nested(open, init, neg);
      calc {
        Repeat(open, n - 1) + names[0] + Closers(names[1..], neg);
        open + Repeat(open, n - 2) + names[0] + (rest + tail);
        { AppendAssoc(open + Repeat(open, n - 2) + names[0], rest, tail); }
        open + Repeat(open, n - 2) + names[0] + rest + tail;
        { AppendAssoc(open, Repeat(open, n - 2), names[0]);
          AppendAssoc(open, Repeat(open, n - 2) + names[0], rest); }
        open + inner + tail;
      }
    }
  }

  /**
   * Union, Intersection and Substraction share one shape: |names|-1 openings, the first
   * register, then ", name)" (or ", _neg_(name))") for each further register.
   */
  method EmitExact(open: string, names: seq<string>, neg: bool) returns (code: string)
    requires |names| > 0
    ensures code == Nested(open, names, neg)
  {
    code := "";
    var i := 0;
    while i < |names| - 1
      invariant 0 <= i <= |names| - 1
      invariant code == Repeat(open, i)
    {
      code := code + open;
      i := i + 1;
    }
    code := code + names[0];
    ghost var start := code;
    i := 1;
    while i < |names|
      invariant 1 <= i <= |names|
      invariant code == start + Closers(names[1..i], neg)
    {
      assert names[1..i + 1][..i - 1] == names[1..i];
      AppendAssoc(start, Closers(names[1..i], neg), Closer(names[i], neg));
      if neg {
        code := code + ", _neg_(" + names[i] + "))";
      } else {
        code := code + ", " + names[i] + ")";
      }
      i := i + 1;
    }
    assert names[1..i] == names[1..];
    FlatIsNested(open, names, neg);
  }

  /** The number of occurrences of `c` in `s`. */
  function Occurrences(s: string, c: char): nat {
    multiset(s)[c]
  }

  predicate NoParens(s: string) {
    Occurrences(s, '(') == 0 && Occurrences(s, ')') == 0
  }

  /** A closing step closes one call, and opens and closes the negation of a subtraction. */
  lemma CloserBalanced(name: string, neg: bool)
    requires NoParens(name)
    ensures Occurrences(Closer(name, neg), '(') == if neg then 1 else 0
    ensures Occurrences(Closer(name, neg), ')') == if neg then 2 else 1
  {
    if neg {
      assert multiset(", _neg_(" + name + "))") == multiset(", _neg_(") + multiset(name) + multiset("))");
    } else {
      assert multiset(", " + name + ")") == multiset(", ") + multiset(name) + multiset(")");
    }
  }

  /**
   * With parenthesis-free register names and an opening that opens one call, the chain is
   * balanced: one parenthesis pair per binary step, and one more per negation.
   */
  lemma {:induction false} NestedBalanced(open: string, names: seq<string>, neg: bool)
    requires |names| > 0
    requires Occurrences(open, '(') == 1 && Occurrences(open, ')') == 0
    requires forall i :: 0 <= i < |names| ==> NoParens(names[i])
    ensures Occurrences(Nested(open, names, neg), '(') == (if neg then 2 else 1) * (|names| - 1)
    ensures Occurrences(Nested(open, names, neg), ')') == (if neg then 2 else 1) * (|names| - 1)
    decreases |names|
  {
    var n := |names|;
    if n > 1 {
      var init := names[..n - 1];
      NestedBalanced(open, init, neg);
      CloserBalanced(names[n - 1], neg);
      var inner := Nested(open, init, neg);
      var tail := Closer(names[n - 1], neg);
      assert multiset(open + inner + tail) == multiset(open) + multiset(inner) + multiset(tail);
    }
  }

  /** The expression an operator writes for the input registers `names`, or why it cannot. */
  function OperatorText(op: Operator, names: seq<string>): Result<string, Reason>
    requires |names| > 0
  {
    match op
    case Union => Success(Nested("_dmin_(", names, false))
    case Intersection => Success(Nested("_dmax_(", names, false))
    case Substraction => Success(Nested("_dmax_(", names, true))
    case _ =>
      if |names| != 2 then Failure(SmoothOperatorNeedsExactlyTwoInputs)
      else
        var call := match op
          case SmoothUnion(_) => "_TEMPLATE_smooth_union("
          case SmoothIntersection(_) => "_TEMPLATE_smooth_intersection("
          case SmoothSubstraction(_) => "_TEMPLATE_smooth_substraction(";
        Success(call + names[0] + ", " + names[1] + ", " + op.k + ")")
  }

  /** An operator fails exactly when it is smooth and does not get exactly two inputs. */
  lemma OperatorFails(op: Operator, names: seq<string>)
    requires |names| > 0
    ensures OperatorText(op, names).Failure? <==> op.IsSmooth() && |names| != 2
    ensures OperatorText(op, names).Failure? ==> OperatorText(op, names).error == SmoothOperatorNeedsExactlyTwoInputs
  {
  }

  /** A single input passes through an exact operator unchanged. */
  lemma ExactSingle(op: Operator, name: string)
    requires !op.IsSmooth()
    ensures OperatorText(op, [name]) == Success(name)
  {
  }

  /** Two inputs give one binary call, first input first. */
  lemma ExactPair(op: Operator, a: string, b: string)
    requires !op.IsSmooth()
    ensures op.Union? ==> OperatorText(op, [a, b]) == Success("_dmin_(" + a + ", " + b + ")")
    ensures op.Intersection? ==> OperatorText(op, [a, b]) == Success("_dmax_(" + a + ", " + b + ")")
    ensures op.Substraction? ==> OperatorText(op, [a, b]) == Success("_dmax_(" + a + ", _neg_(" + b + "))")
  {
    assert [a, b][..1] == [a];
    forall open: string, neg: bool
      ensures Nested(open, [a, b], neg) == open + a + Closer(b, neg)
    {
    }
    AppendAssoc("_dmin_(" + a, ", " + b, ")");
    AppendAssoc("_dmin_(" + a, ", ", b);
    AppendAssoc("_dmax_(" + a, ", " + b, ")");
    AppendAssoc("_dmax_(" + a, ", ", b);
    AppendAssoc("_dmax_(" + a, ", _neg_(" + b, "))");
    AppendAssoc("_dmax_(" + a, ", _neg_(", b);
  }

  /**
   * The operator's code generation: the exact operators run the emitter loops, the smooth ones
   * first check that there are exactly two inputs.
   */
  method GenerateShader(op: Operator, names: seq<string>) returns (r: Result<string, Reason>)
    requires |names| > 0
    ensures r == OperatorText(op, names)
  {
    match op
    case Union =>
      var code := EmitExact("_dmin_(", names, false);
      r := Success(code);
    case Intersection =>
      var code := EmitExact("_dmax_(", names, false);
      r := Success(code);
    case Substraction =>
      var code := EmitExact("_dmax_(", names, true);
      r := Success(code);
    case SmoothUnion(k) =>
      if |names| != 2 {
        r := Failure(SmoothOperatorNeedsExactlyTwoInputs);
      } else {
        r := Success("_TEMPLATE_smooth_union(" + names[0] + ", " + names[1] + ", " + k + ")");
      }
    case SmoothIntersection(k) =>
      if |names| != 2 {
        r := Failure(SmoothOperatorNeedsExactlyTwoInputs);
      } else {
        r := Success("_TEMPLATE_smooth_intersection(" + names[0] + ", " + names[1] + ", " + k + ")");
      }
    case SmoothSubstraction(k) =>
      if |names| != 2 {
        r := Failure(SmoothOperatorNeedsExactlyTwoInputs);
      } else {
        r := Success("_TEMPLATE_smooth_substraction(" + names[0] + ", " + names[1] + ", " + k + ")");
      }
  }
}
