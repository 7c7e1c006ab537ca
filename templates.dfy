/**
 * Instantiation of the primitive library template: every placeholder name
 * becomes either the real-valued or the dual-number function name.
 */
module Templates {
  import opened Text

  /** A placeholder and the names it stands for in the real and in the dual library. */
  datatype NameTableEntry = NameTableEntry(templateName: string, realName: string, dualName: string)

  const FunctionNameTable: seq<NameTableEntry> := [
    NameTableEntry("_dnum_", "float", "dnum"),
    NameTableEntry("_dnum2_", "vec2", "dnum2"),
    NameTableEntry("_dnum3_", "vec3", "dnum3"),

    NameTableEntry("_zero_", "r_zero", "zero"),
    NameTableEntry("_conj_", "r_conj", "conj"),
    NameTableEntry("_realValue_", "r_realValue", "realValue"),
    NameTableEntry("_isReal_", "r_isReal", "isReal"),
    NameTableEntry("_neg_", "r_neg", "neg"),
    NameTableEntry("_add_", "r_add", "add"),
    NameTableEntry("_add3_", "r_add3", "add3"),
    NameTableEntry("_sub_", "r_sub", "sub"),
    NameTableEntry("_sub3_", "r_sub3", "sub3"),
    NameTableEntry("_mul_", "r_mul", "mul"),
    NameTableEntry("_mul3_", "r_mul3", "mul3"),
    NameTableEntry("_div_", "r_div", "div"),
    NameTableEntry("_div3_", "r_div3", "div3"),
    NameTableEntry("_constant_", "r_constant", "constant"),
    NameTableEntry("_constant3_", "r_constant3", "constant3"),
    NameTableEntry("_variable_", "r_variable", "variable"),
    NameTableEntry("_variable3_", "r_variable3", "variable3"),

    NameTableEntry("_dabs_", "r_dabs", "dabs"),
    NameTableEntry("_dabs3_", "r_dabs3", "dabs3"),
    NameTableEntry("_dmin_", "r_dmin", "dmin"),
    NameTableEntry("_dmin3_", "r_dmin3", "dmin3"),
    NameTableEntry("_dmax_", "r_dmax", "dmax"),
    NameTableEntry("_dmax3_", "r_dmax3", "dmax3"),
    NameTableEntry("_dclamp_", "r_dclamp", "dclamp"),
    NameTableEntry("_dmix_", "r_dmix", "dmix"),
    NameTableEntry("_dsqrt_", "r_dsqrt", "dsqrt"),
    NameTableEntry("_dlength_", "r_dlength", "dlength"),

    NameTableEntry("_dsin_", "r_dsin", "dsin"),
    NameTableEntry("_dcos_", "r_dcos", "dcos"),
    NameTableEntry("_ddot_", "r_ddot", "ddot")
  ]

  const TemplateMarker := "_TEMPLATE_"

  /** The name an entry's placeholder becomes. */
  function Target(entry: NameTableEntry, dual: bool): string
  {
    if dual then entry.dualName else entry.realName
  }

  /** Every placeholder can be searched for. */
  predicate Searchable(table: seq<NameTableEntry>)
  {
    forall i :: 0 <= i < |table| ==> |table[i].templateName| > 0
  }

  /** The entries' replacements applied one after the other, in table order. */
  function Substitute(str: string, table: seq<NameTableEntry>, dual: bool): string
    requires Searchable(table)
    decreases |table|
  {
    if |table| == 0 then str
    else Substitute(ReplaceAll(str, table[0].templateName, Target(table[0], dual)), table[1..], dual)
  }

  /** What GenerateFromTemplate returns. */
  function Instantiate(str: string, dual: bool): string
  {
    ReplaceAll(Substitute(str, FunctionNameTable, dual), TemplateMarker, if dual then "d_" else "r_")
  }

  /** The table substitutions over the prefix table[..i] and then over the rest. */
  lemma {:induction false} SubstituteSplit(str: string, table: seq<NameTableEntry>, dual: bool, i: nat)
    requires Searchable(table) && i < |table|
    ensures Searchable(table[..i]) && Searchable(table[i + 1..])
    ensures Substitute(str, table[..i + 1], dual)
      == ReplaceAll(Substitute(str, table[..i], dual), table[i].templateName, Target(table[i], dual))
    decreases i
  {
    if i > 0 {
      var s1 := ReplaceAll(str, table[0].templateName, Target(table[0], dual));
      SubstituteSplit(s1, table[1..], dual, i - 1);
      assert table[..i + 1][1..] == table[1..][..i];
      assert table[..i][1..] == table[1..][..i - 1];
      assert table[1..][i - 1] == table[i];
    } else {
      assert table[..1][1..] == [];
    }
  }

  lemma TableSearchable()
    ensures Searchable(FunctionNameTable)
  {
  }

  /** The loop over the name table: each entry's placeholder replaced in turn. */
  method ApplyTable(str: string, table: seq<NameTableEntry>, dual: bool) returns (r: string)
    requires Searchable(table)
    ensures r == Substitute(str, table, dual)
  {
    r := str;
    var i := 0;
    while i < |table|
      invariant 0 <= i <= |table|
      invariant r == Substitute(str, table[..i], dual)
    {
      var entry := table[i];
      SubstituteSplit(str, table, dual, i);
      r := ReplaceAll(r, entry.templateName, if dual then entry.dualName else entry.realName);
      i := i + 1;
    }
    assert table[..i] == table;
  }

  method GenerateFromTemplate(str: string, dual: bool) returns (r: string)
    ensures r == Instantiate(str, dual)
  {
    TableSearchable();
    r := ApplyTable(str, FunctionNameTable, dual);
    r := ReplaceAll(r, TemplateMarker, if dual then "d_" else "r_");
  }

  /** Text free of every placeholder passes through the substitutions unchanged. */
  lemma {:induction false} SubstituteAbsent(str: string, table: seq<NameTableEntry>, dual: bool)
    requires Searchable(table)
    requires forall i :: 0 <= i < |table| ==> !Contains(str, table[i].templateName)
    ensures Substitute(str, table, dual) == str
    decreases |table|
  {
    if |table| > 0 {
      ReplaceAbsent(str, table[0].templateName, Target(table[0], dual));
      SubstituteAbsent(str, table[1..], dual);
    }
  }

  /** A template without placeholders is already the library: both instantiations return it. */
  lemma InstantiateAbsent(str: string, dual: bool)
    requires forall i :: 0 <= i < |FunctionNameTable| ==> !Contains(str, FunctionNameTable[i].templateName)
    requires !Contains(str, TemplateMarker)
    ensures Instantiate(str, dual) == str
  {
    TableSearchable();
    SubstituteAbsent(str, FunctionNameTable, dual);
    ReplaceAbsent(str, TemplateMarker, if dual then "d_" else "r_");
  }
}
