/**
 * The GLSL constant-array printers of the shader library: a one-dimensional
 * array `const T name[n] = {...};` and a two-dimensional one with one
 * brace-enclosed line per row.
 */
module GlslArrays {
  import opened Text

  /** The decimal numerals of the values, in order. */
  function Numerals(vals: seq<nat>): (r: seq<string>)
    ensures |r| == |vals| && forall i :: 0 <= i < |vals| ==> r[i] == NatToString(vals[i])
  {
    seq(|vals|, i requires 0 <= i < |vals| => NatToString(vals[i]))
  }

  /** The values separated by commas, without a trailing comma. */
  function Elements(vals: seq<nat>): string
  {
    Join(Numerals(vals), ",")
  }

  lemma ElementsSnoc(vals: seq<nat>, i: nat)
    requires 1 <= i < |vals|
    ensures Elements(vals[..i + 1]) == Elements(vals[..i]) + "," + NatToString(vals[i])
  {
    assert Numerals(vals[..i + 1]) == Numerals(vals[..i]) + [NatToString(vals[i])];
    JoinSnoc(Numerals(vals[..i]), ",", NatToString(vals[i]));
  }

  /** The element list splits at its commas into numerals that read back as the values. */
  lemma ElementsDecode(vals: seq<nat>)
    requires |vals| > 0
    ensures |Split(Elements(vals), ',')| == |vals|
    ensures forall i :: 0 <= i < |vals| ==>
      AllDigits(Split(Elements(vals), ',')[i]) && ParseNat(Split(Elements(vals), ',')[i]) == vals[i]
  {
    var ns := Numerals(vals);
    forall i | 0 <= i < |ns| ensures ',' !in ns[i] {
      DigitsExclude(ns[i], ',');
    }
    SplitJoin(ns, ',');
    forall i | 0 <= i < |vals| ensures ParseNat(ns[i]) == vals[i] {
      ParsePrinted(vals[i]);
    }
  }

  /** `const <type> <name>[<size>] = {` and a line break. */
  function Declaration(glslType: string, name: string, size: nat): string
  {
    "const " + glslType + " " + name + "[" + NatToString(size) + "] = {\n"
  }

  /** The text CreateConstGlslArray produces. */
  function ArrayText(name: string, glslType: string, vals: seq<nat>): string
    requires |vals| > 0
  {
    Declaration(glslType, name, |vals|) + "    " + Elements(vals) + "\n};\n"
  }

  /** Appends the values separated by commas: the loop both printers share. */
  method AppendElements(prefix: string, vals: seq<nat>) returns (code: string)
    requires |vals| > 0
    ensures code == prefix + Elements(vals)
  {
    code := prefix + NatToString(vals[0]);
    assert Elements(vals[..1]) == NatToString(vals[0]) by {
      assert Numerals(vals[..1]) == [NatToString(vals[0])];
    }
    var i := 1;
    while i < |vals|
      invariant 1 <= i <= |vals|
      invariant code == prefix + Elements(vals[..i])
    {
      code := code + "," + NatToString(vals[i]);
      ElementsSnoc(vals, i);
      i := i + 1;
    }
    assert vals[..i] == vals;
  }

  method CreateConstGlslArray(name: string, glslType: string, vals: seq<nat>) returns (code: string)
    requires |vals| > 0
    ensures code == ArrayText(name, glslType, vals)
  {
    code := Declaration(glslType, name, |vals|);
    code := AppendElements(code + "    ", vals);
    code := code + "\n};\n";
  }

  /**
   * The array text is the declaration of |vals| elements, four spaces, the
   * element list and the closing brace; the element list reads back as vals.
   */
  lemma ArrayTextDecodes(name: string, glslType: string, vals: seq<nat>)
    requires |vals| > 0
    ensures var t := ArrayText(name, glslType, vals);
      var d := Declaration(glslType, name, |vals|);
      |t| >= |d| + 8 && t[..|d|] == d && t[|d|..|d| + 4] == "    " && t[|t| - 4..] == "\n};\n"
      && var body := Split(t[|d| + 4..|t| - 4], ',');
      |body| == |vals|
      && forall i :: 0 <= i < |vals| ==> AllDigits(body[i]) && ParseNat(body[i]) == vals[i]
  {
    var t := ArrayText(name, glslType, vals);
    var d := Declaration(glslType, name, |vals|);
    var e := Elements(vals);
    assert t == d + "    " + e + "\n};\n";
    assert t[|d| + 4..|t| - 4] == e;
    ElementsDecode(vals);
  }

  // Two-dimensional arrays

  /** `const <type> <name>[<rows>][<columns>] = {` and a line break. */
  function Declaration2D(glslType: string, name: string, rows: nat, cols: nat): string
  {
    "const " + glslType + " " + name + "[" + NatToString(rows) + "][" + NatToString(cols) + "] = {\n"
  }

  /** One row: four spaces, the elements in braces and a comma. */
  function RowText(row: seq<nat>): string
  {
    "    {" + Elements(row) + "},\n"
  }

  function RowsText(rows: seq<seq<nat>>): string
  {
    if rows == [] then "" else RowsText(rows[..|rows| - 1]) + RowText(rows[|rows| - 1])
  }

  /** Every row has a first element to print. */
  predicate RowsNonEmpty(vals: seq<seq<nat>>)
  {
    forall i :: 0 <= i < |vals| ==> |vals[i]| > 0
  }

  /** The text CreateConstGlslArray2D produces; the column count is read from the first row. */
  function Array2DText(name: string, glslType: string, vals: seq<seq<nat>>): string
    requires |vals| > 0
  {
    Declaration2D(glslType, name, |vals|, |vals[0]|) + RowsText(vals) + "};\n"
  }

  method CreateConstGlslArray2D(name: string, glslType: string, vals: seq<seq<nat>>) returns (code: string)
    requires |vals| > 0 && RowsNonEmpty(vals)
    ensures code == Array2DText(name, glslType, vals)
  {
    code := Declaration2D(glslType, name, |vals|, |vals[0]|);
    var r := 0;
    while r < |vals|
      invariant 0 <= r <= |vals|
      invariant code == Declaration2D(glslType, name, |vals|, |vals[0]|) + RowsText(vals[..r])
    {
      ghost var before := code;
      code := AppendElements(code + "    {", vals[r]);
      code := code + "},\n";
      assert code == before + RowText(vals[r]);
      assert vals[..r + 1][..r] == vals[..r];
      r := r + 1;
    }
    assert vals[..r] == vals;
    code := code + "};\n";
  }

  /** The row lines without their line breaks. */
  function RowLines(rows: seq<seq<nat>>): (r: seq<string>)
    ensures |r| == |rows|
  {
    seq(|rows|, i requires 0 <= i < |rows| => "    {" + Elements(rows[i]) + "},")
  }

  lemma {:induction false} RowsJoin(rows: seq<seq<nat>>)
    requires |rows| > 0
    ensures RowsText(rows) == Join(RowLines(rows), "\n") + "\n"
    decreases |rows|
  {
    if |rows| > 1 {
      var init := rows[..|rows| - 1];
      RowsJoin(init);
      assert RowLines(rows) == RowLines(init) + [RowLines(rows)[|rows| - 1]];
      JoinSnoc(RowLines(init), "\n", RowLines(rows)[|rows| - 1]);
    } else {
      assert rows[..0] == [];
    }
  }

  /**
   * The rows of the 2D text sit on their own lines, in order, each of the
   * form four spaces, `{`, the row's element list and `},`.
   */
  lemma Array2DTextRows(name: string, glslType: string, vals: seq<seq<nat>>)
    requires |vals| > 0
    ensures var t := Array2DText(name, glslType, vals);
      var d := Declaration2D(glslType, name, |vals|, |vals[0]|);
      |t| >= |d| + 4 && t[..|d|] == d && t[|t| - 3..] == "};\n"
      && Split(t[|d|..|t| - 4], '\n') == RowLines(vals)
  {
    var t := Array2DText(name, glslType, vals);
    var d := Declaration2D(glslType, name, |vals|, |vals[0]|);
    var lines := RowLines(vals);
    RowsJoin(vals);
    var j := Join(lines, "\n");
    assert t == d + j + "\n" + "};\n";
    assert t[|d|..|t| - 4] == j;
    forall i | 0 <= i < |lines| ensures '\n' !in lines[i] {
      NoLineBreakInElements(vals[i]);
    }
    SplitJoin(lines, '\n');
  }

  lemma NoLineBreakInElements(vals: seq<nat>)
    ensures '\n' !in "    {" + Elements(vals) + "},"
  {
    NoCharInJoin(Numerals(vals), ",", '\n');
  }

  lemma {:induction false} NoCharInJoin(parts: seq<string>, sep: string, c: char)
    requires c !in sep && forall i :: 0 <= i < |parts| ==> AllDigits(parts[i])
    requires !IsDigit(c)
    ensures c !in Join(parts, sep)
    decreases |parts|
  {
    if |parts| > 1 {
      NoCharInJoin(parts[1..], sep, c);
    }
    if |parts| > 0 {
      DigitsExclude(parts[0], c);
    }
  }

  /** A numeral holds no character other than digits. */
  lemma DigitsExclude(s: string, c: char)
    requires AllDigits(s) && !IsDigit(c)
    ensures c !in s
  {
    forall k | 0 <= k < |s| ensures s[k] != c {
      assert IsDigit(s[k]);
    }
  }
}
