/**
 * The two text generators of the shader library that do not differentiate:
 * the constants header (derivative order, lookup tables, SIZE) and the
 * substitution of placeholder names in the primitive library template.
 */
module ShaderConstants {
  import opened Text
  import opened Combinatorics
  import opened GlslArrays
  import opened ShaderLib

  // The constants header

  /** tetra: the tetrahedral numbers 0 .. n. */
  function TetraTable(n: nat): (r: seq<nat>)
    ensures |r| == n + 1
  {
    seq(n + 1, i requires 0 <= i <= n => Tetra(i))
  }

  /** tri: the triangular numbers 0 .. n. */
  function TriTable(n: nat): (r: seq<nat>)
    ensures |r| == n + 1
  {
    seq(n + 1, i requires 0 <= i <= n => Tri(i))
  }

  /** choose: the n by n table of binomial coefficients. */
  function ChooseTable(n: nat): (r: seq<seq<nat>>)
    ensures |r| == n && forall i :: 0 <= i < n ==> |r[i]| == n
  {
    seq(n, i requires 0 <= i < n => seq(n, j requires 0 <= j < n => Choose(i, j)))
  }

  /** The version line and the derivative order. */
  function OrderLines(k: nat): string
  {
    "#version 460\n" + "#define DERIVATIVE_ORDER " + NatToString(k) + "\n"
  }

  const EnabledLine := "#define DERIVATIVES_ENABLED\n"

  /** The three lookup tables, sized for derivatives up to order k. */
  function TablesText(k: nat): string
  {
    ArrayText("tetra", "int", TetraTable(k + 1)) + ArrayText("tri", "int", TriTable(k + 1))
    + Array2DText("choose", "int", ChooseTable(k + 1))
  }

  function SizeLine(size: nat): string
  {
    "#define SIZE " + NatToString(size) + "\n"
  }

  /** The header GenerateConstants writes for derivative order k. */
  function ConstantsText(k: nat): string
  {
    OrderLines(k) + (if k > 0 then EnabledLine else "") + TablesText(k) + SizeLine(Tetra(k + 1))
  }

  method GenerateConstants(k: nat) returns (code: string)
    ensures code == ConstantsText(k)
  {
    code := "#version 460\n";
    code := code + "#define DERIVATIVE_ORDER " + NatToString(k) + "\n";
    if k > 0 {
      code := code + "#define DERIVATIVES_ENABLED\n";
    }
    ghost var head := code;
    var tetrahedralNumbers := CalculateTetrahedralNumbers(k + 1);
    assert tetrahedralNumbers == TetraTable(k + 1);
    var tetra := CreateConstGlslArray("tetra", "int", tetrahedralNumbers);
    var triangularNumbers := CalculateTriangularNumbers(k + 1);
    assert triangularNumbers == TriTable(k + 1);
    var tri := CreateConstGlslArray("tri", "int", triangularNumbers);
    var pascalTriangle := CalculateNChooseK(k + 1);
    assert pascalTriangle == ChooseTable(k + 1) by {
      forall i | 0 <= i < k + 1 ensures pascalTriangle[i] == ChooseTable(k + 1)[i] {
        assert pascalTriangle[i] == seq(k + 1, j requires 0 <= j < k + 1 => Choose(i, j));
      }
    }
    var choose := CreateConstGlslArray2D("choose", "int", pascalTriangle);
    code := code + (tetra + tri + choose);
    code := code + ("#define SIZE " + NatToString(tetrahedralNumbers[k + 1]) + "\n");
  }

  /** The order lines, the optional enabling line, then text that starts with a declaration. */
  lemma {:induction false} EnabledLineIff(head: string, k: nat, body: string)
    requires |body| > 0 && body[0] == 'c'
    ensures var t := head + ((if k > 0 then EnabledLine else "") + body);
      StartsWith(t, head) && (StartsWith(t[|head|..], EnabledLine) <==> k > 0)
  {
    var rest := (if k > 0 then EnabledLine else "") + body;
    PrefixOfAppend(head, rest);
    if k == 0 {
      assert rest[0] == 'c';
      assert EnabledLine[0] == '#';
    } else {
      PrefixOfAppend(EnabledLine, body);
    }
  }

  /** Every table starts with `const`. */
  lemma TablesStart(k: nat)
    ensures |TablesText(k)| > 0 && TablesText(k)[0] == 'c'
  {
    var decl := Declaration("int", "tetra", k + 2);
    assert decl[0] == 'c';
  }

  /**
   * The header starts with the version and order lines; the line after them
   * enables derivatives exactly when the order is positive.
   */
  lemma DerivativesEnabledIff(k: nat)
    ensures StartsWith(ConstantsText(k), OrderLines(k))
    ensures StartsWith(ConstantsText(k)[|OrderLines(k)|..], EnabledLine) <==> k > 0
  {
    var head, tables, size := OrderLines(k), TablesText(k), SizeLine(Tetra(k + 1));
    var enabled := if k > 0 then EnabledLine else "";
    TablesStart(k);
    EnabledLineIff(head, k, tables + size);
    AppendAssoc(head + enabled, tables, size);
    AppendAssoc(head, enabled, tables + size);
  }

  /**
   * SIZE, the last tetrahedral number in the table, is the number of
   * multi-indices of order at most k: the length of a dual number's array.
   */
  lemma ConstantsSize(k: nat)
    ensures TetraTable(k + 1)[k + 1] == |UpTo(k)|
    ensures 6 * |UpTo(k)| == (k + 1) * (k + 2) * (k + 3)
    ensures var t := ConstantsText(k); var s := SizeLine(|UpTo(k)|);
      |s| <= |t| && t[|t| - |s|..] == s
  {
    UpToLength(k);
    TetraClosedForm(k + 1);
    var t := ConstantsText(k);
    var s := SizeLine(|UpTo(k)|);
    var front := OrderLines(k) + (if k > 0 then EnabledLine else "") + TablesText(k);
    assert t == front + s;
    assert t[|t| - |s|..] == s;
  }
}
