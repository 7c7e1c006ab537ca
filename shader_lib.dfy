/**
 * The dual-number shader library generator: integer tables for the GLSL
 * header, the set-partition successor, the Faà di Bruno chain-rule emitter
 * and the placeholder substitution that turns the primitive template into its
 * real and dual variants.
 */
module ShaderLib {
  import opened Wrappers
  import opened Text
  import opened Combinatorics
  import opened Partitions
  import opened Groups
  import opened GlslArrays

  // ---------------------------------------------------------------------
  // Integer tables

  /** Triangular numbers 0..n; entry 1 is written unconditionally, hence n >= 1. */
  method CalculateTriangularNumbers(n: nat) returns (v: seq<nat>)
    requires n >= 1
    ensures |v| == n + 1
    ensures forall i :: 0 <= i <= n ==> v[i] == Tri(i) && 2 * v[i] == i * (i + 1)
  {
    var a := new nat[n + 1];
    a[0] := 0;
    a[1] := 1;
    var step := 2;
    var i := 2;
    while i <= n
      invariant 2 <= i <= n + 1 && step == i
      invariant forall k :: 0 <= k < i ==> a[k] == Tri(k)
    {
      a[i] := a[i - 1] + step;
      step := step + 1;
      i := i + 1;
    }
    v := a[..];
    forall i | 0 <= i <= n ensures 2 * v[i] == i * (i + 1) {
      TriClosedForm(i);
    }
  }

  /** Tetrahedral numbers 0..n; each step adds the next triangular number. */
  method CalculateTetrahedralNumbers(n: nat) returns (v: seq<nat>)
    requires n >= 1
    ensures |v| == n + 1
    ensures forall i :: 0 <= i <= n ==> v[i] == Tetra(i) && 6 * v[i] == i * (i + 1) * (i + 2)
    ensures forall i :: 1 <= i <= n ==> v[i] - v[i - 1] == Tri(i)
  {
    var a := new nat[n + 1];
    a[0] := 0;
    a[1] := 1;
    var step := 3;
    var substep := 3;
    var i := 2;
    while i <= n
      invariant 2 <= i <= n + 1 && step == Tri(i) && substep == i + 1
      invariant forall k :: 0 <= k < i ==> a[k] == Tetra(k)
    {
      a[i] := a[i - 1] + step;
      step := step + substep;
      substep := substep + 1;
      i := i + 1;
    }
    v := a[..];
    forall i | 0 <= i <= n ensures 6 * v[i] == i * (i + 1) * (i + 2) {
      TetraClosedForm(i);
    }
  }

  /** The n-by-n Pascal table: column 0 is one, the rest starts at zero and follows Pascal's rule. */
  method CalculateNChooseK(n: nat) returns (r: seq<seq<nat>>)
    ensures |r| == n
    ensures forall i :: 0 <= i < n ==> |r[i]| == n
    ensures forall i, j :: 0 <= i < n && 0 <= j < n ==> r[i][j] == Choose(i, j)
    ensures forall i, j :: 0 <= i < j < n ==> r[i][j] == 0
  {
    r := seq(n, _ => seq(n, j => if j == 0 then 1 else 0));
    var i := 1;
    while i < n
      invariant 1 <= i <= n || n == 0
      invariant |r| == n && forall k :: 0 <= k < n ==> |r[k]| == n
      invariant forall k, j :: 0 <= k < i && k < n && 0 <= j < n ==> r[k][j] == Choose(k, j)
      invariant forall k :: i <= k < n ==> r[k][0] == 1
    {
      var row := PascalRow(r[i - 1], r[i], i);
      r := r[i := row];
      i := i + 1;
    }
    forall i, j | 0 <= i < j < n ensures r[i][j] == 0 {
      ChooseAbove(i, j);
    }
  }

  /** The inner loop of CalculateNChooseK: row i from row i - 1, column 0 kept at one. */
  method PascalRow(prev: seq<nat>, start: seq<nat>, i: nat) returns (row: seq<nat>)
    requires i >= 1 && |start| == |prev| > 0 && start[0] == 1
    requires forall l :: 0 <= l < |prev| ==> prev[l] == Choose(i - 1, l)
    ensures |row| == |prev| && forall l :: 0 <= l < |prev| ==> row[l] == Choose(i, l)
  {
    row := start;
    var j := 1;
    while j < |prev|
      invariant 1 <= j <= |prev| && |row| == |prev|
      invariant forall l :: 0 <= l < j ==> row[l] == Choose(i, l)
    {
      row := row[j := prev[j - 1] + prev[j]];
      j := j + 1;
    }
  }

  // ---------------------------------------------------------------------
  // The set-partition successor

  /** The string NextPartition produces once it has chosen position i. */
  function Successor(p: seq<int>, i: nat): (q: seq<int>)
    requires i < |p|
    ensures |q| == |p|
  {
    p[..i] + [p[i] + 1] + Ones(|p| - i - 1)
  }

  /** Before i the successor keeps p, at i it is one larger, after i it is 1. */
  lemma SuccessorAt(p: seq<int>, i: nat, k: nat)
    requires i < |p| && k < |p|
    ensures Successor(p, i)[k] == if k < i then p[k] else if k == i then p[i] + 1 else 1
  {
  }

  /** Up to the changed position the successor has the same running maxima. */
  lemma SuccessorKeepsPrefix(p: seq<int>, i: nat)
    requires i < |p|
    ensures forall k :: 0 <= k <= i ==> PrefixMax(Successor(p, i), k) == PrefixMax(p, k)
  {
    var q := Successor(p, i);
    forall k | 0 <= k <= i ensures PrefixMax(q, k) == PrefixMax(p, k) {
      assert q[..k] == p[..k];
      PrefixMaxAgrees(p, q, k);
    }
  }

  /**
   * Advances a restricted growth string in place: the last position i > 0
   * whose label does not exceed the running maximum is incremented, every
   * later label becomes 1 and the maxima after i are recomputed. Returns
   * false and changes nothing when no such position exists.
   */
  method NextPartition(partition: array<int>, max: array<int>) returns (advanced: bool)
    requires partition != max
    requires partition.Length == max.Length >= 1
    requires max[..] == Maxes(partition[..])
    modifies partition, max
    ensures advanced <==> NextRGS(old(partition[..])).Some?
    ensures advanced ==> partition[..] == NextRGS(old(partition[..])).value
    ensures !advanced ==> partition[..] == old(partition[..]) && max[..] == old(max[..])
    ensures max[..] == Maxes(partition[..])
  {
    ghost var p := partition[..];
    var n := partition.Length;
    var i := n - 1;
    while i > 0
      invariant 0 <= i < n
      invariant Pivot(p, n - 1) == Pivot(p, i)
      invariant partition[..] == p && max[..] == Maxes(p)
    {
      assert max[i] == PrefixMax(p, i);
      if partition[i] <= max[i] {
        assert NextRGS(p) == Some(Successor(p, i));
        RelabelFrom(partition, max, i);
        return true;
      }
      i := i - 1;
    }
    return false;
  }

  /** The body of NextPartition's success branch: bump label i, then reset the tail. */
  method RelabelFrom(partition: array<int>, max: array<int>, i: nat)
    requires partition != max
    requires i < partition.Length == max.Length
    requires max[..] == Maxes(partition[..])
    modifies partition, max
    ensures partition[..] == Successor(old(partition[..]), i)
    ensures max[..] == Maxes(partition[..])
  {
    ghost var p := partition[..];
    ghost var q := Successor(p, i);
    assert forall k :: 0 <= k <= i ==> max[k] == PrefixMax(q, k) by {
      SuccessorKeepsPrefix(p, i);
      assert forall k :: 0 <= k <= i ==> max[k] == Maxes(p)[k];
    }
    partition[i] := partition[i] + 1;
    assert forall k :: 0 <= k <= i ==> partition[k] == q[k] by {
      forall k | 0 <= k <= i ensures partition[k] == q[k] {
        SuccessorAt(p, i, k);
      }
    }
    assert forall k :: i < k < |q| ==> q[k] == 1 by {
      forall k | i < k < |q| ensures q[k] == 1 {
        SuccessorAt(p, i, k);
      }
    }
    ResetTail(partition, max, i + 1, q);
  }

  /**
   * NextPartition's inner loop: from position start on, every label becomes 1
   * and max[j] is recomputed from max[j - 1] and partition[j - 1].
   */
  method ResetTail(partition: array<int>, max: array<int>, start: nat, ghost q: seq<int>)
    requires partition != max
    requires 1 <= start <= partition.Length == max.Length == |q|
    requires forall k :: start <= k < |q| ==> q[k] == 1
    requires forall k :: 0 <= k < start ==> partition[k] == q[k]
    requires forall k :: 0 <= k < start ==> max[k] == PrefixMax(q, k)
    modifies partition, max
    ensures partition[..] == q && max[..] == Maxes(q)
  {
    var j := start;
    while j < partition.Length
      invariant start <= j <= partition.Length
      invariant forall k :: 0 <= k < j ==> partition[k] == q[k]
      invariant forall k :: 0 <= k < j ==> max[k] == PrefixMax(q, k)
    {
      partition[j] := 1;
      max[j] := if max[j - 1] >= partition[j - 1] then max[j - 1] else partition[j - 1];
      j := j + 1;
    }
    assert partition[..] == q;
  }

  // ---------------------------------------------------------------------
  // The chain-rule emitter

  const Indent := "    "

  /** The emitter's only regex use: every `x` of a derivative's text becomes the real part `d.d[0]`. */
  function AtRealPart(f: string): string
  {
    ReplaceAll(f, "x", "d.d[0]")
  }

  /** `IDX(x, y, z)`, the GLSL macro that locates a partial derivative in a dual number. */
  function IdxText(m: MultiIndex): string
  {
    "IDX(" + NatToString(m.x) + ", " + NatToString(m.y) + ", " + NatToString(m.z) + ")"
  }

  /** The signature, the locals and the value part f(d.d[0]). */
  function Header(name: string, f0: string): string
  {
    "dnum " + name + "(dnum d) {\n" + Indent + "float tmp;\n" + Indent + "dnum result = zero();\n"
    + Indent + "result.d[0] = " + AtRealPart(f0) + ";\n"
  }

  const Footer := Indent + "return result;\n" + "}\n"

  /** Multiplies tmp by one group's derivative of the argument. */
  function FactorLine(t: MultiIndex): string
  {
    Indent + "tmp *= d.d[" + IdxText(t) + "];\n"
  }

  function FactorLines(ts: seq<MultiIndex>): string
  {
    if ts == [] then "" else FactorLines(ts[..|ts| - 1]) + FactorLine(ts[|ts| - 1])
  }

  /**
   * One Faà di Bruno term for the derivative m and the partition p of its
   * |p| derivations: f^(s) at the real part, s the number of groups, times
   * one factor per group, added into result.d[IDX(m)].
   */
  function TermText(func: seq<string>, p: seq<int>, m: MultiIndex): string
    requires IsRGS(p) && |p| == m.Order() < |func|
  {
    GroupCountBound(p);
    Indent + "tmp = " + AtRealPart(func[GroupCount(p)]) + ";\n"
    + FactorLines(Tallies(p, m.x, m.y))
    + Indent + "result.d[" + IdxText(m) + "] += tmp;\n"
  }

  /** Every listed partition splits the derivations of m. */
  predicate PartitionsOf(ps: seq<seq<int>>, m: MultiIndex)
  {
    forall i :: 0 <= i < |ps| ==> IsRGS(ps[i]) && |ps[i]| == m.Order()
  }

  function TermsText(func: seq<string>, ps: seq<seq<int>>, m: MultiIndex): string
    requires PartitionsOf(ps, m) && m.Order() < |func|
  {
    if ps == [] then "" else TermText(func, ps[0], m) + TermsText(func, ps[1..], m)
  }

  /**
   * What the do-while loop writes from partition p on: the term for p, then the
   * terms from its successor, until the last partition.
   */
  function TermsFrom(func: seq<string>, p: seq<int>, m: MultiIndex): string
    requires IsRGS(p) && |p| == m.Order() < |func|
    decreases Remaining(p)
  {
    TermText(func, p, m)
    + match NextRGS(p)
      case None => ""
      case Some(q) =>
        SuccessorGrows(p);
        NextRGSValid(p);
        TermsFrom(func, q, m)
  }

  /** One pass of the do-while writes the term for p; the rest is written from its successor. */
  lemma TermsFromStep(func: seq<string>, p: seq<int>, m: MultiIndex)
    requires IsRGS(p) && |p| == m.Order() < |func|
    ensures NextRGS(p).None? ==> TermsFrom(func, p, m) == TermText(func, p, m)
    ensures NextRGS(p).Some? ==>
      var q := NextRGS(p).value;
      IsRGS(q) && |q| == |p| && 0 <= Remaining(q) < Remaining(p)
      && TermsFrom(func, p, m) == TermText(func, p, m) + TermsFrom(func, q, m)
  {
    if NextRGS(p).Some? {
      NextRGSValid(p);
      SuccessorGrows(p);
    }
  }

  /** The loop writes one term per partition, in the order Enumerate lists them. */
  lemma {:induction false} TermsFromEnumerate(func: seq<string>, p: seq<int>, m: MultiIndex)
    requires IsRGS(p) && |p| == m.Order() < |func|
    ensures PartitionsOf(Enumerate(p), m)
    ensures TermsFrom(func, p, m) == TermsText(func, Enumerate(p), m)
    decreases Remaining(p)
  {
    EnumerateAllValid(p);
    match NextRGS(p)
    case None =>
      assert Enumerate(p) == [p];
      assert [p][1..] == [];
    case Some(q) =>
      SuccessorGrows(p);
      NextRGSValid(p);
      EnumerateAllValid(q);
      TermsFromEnumerate(func, q, m);
      assert Enumerate(p) == [p] + Enumerate(q);
      assert ([p] + Enumerate(q))[1..] == Enumerate(q);
  }

  /** The code for the partial derivative m: one term per set partition of its derivations. */
  function BlockText(func: seq<string>, m: MultiIndex): string
    requires m.Order() < |func|
  {
    if m.Order() == 0 then ""
    else
      InitialState(m.Order());
      TermsFrom(func, Ones(m.Order()), m)
  }

  /** The block of every multi-index; an order func does not cover never reaches it. */
  function BlockOf(func: seq<string>): MultiIndex -> string
  {
    (m: MultiIndex) => if m.Order() < |func| then BlockText(func, m) else ""
  }

  /** block is BlockText wherever BlockText is defined. */
  ghost predicate Agrees(func: seq<string>, block: MultiIndex -> string)
  {
    forall m: MultiIndex {:trigger BlockText(func, m)} :: m.Order() < |func| ==> block(m) == BlockText(func, m)
  }

  lemma BlockOfAgrees(func: seq<string>)
    ensures Agrees(func, BlockOf(func))
  {
  }

  /** The blocks for z = 0 .. n - 1 at fixed x and y, in the order of the innermost loop. */
  function ZBlocks(block: MultiIndex -> string, x: nat, y: nat, n: nat): string
  {
    if n == 0 then "" else ZBlocks(block, x, y, n - 1) + block(MultiIndex(x, y, n - 1))
  }

  /** The blocks for y = 0 .. n - 1 at fixed x, each with z = 0 .. e - y: the middle loop. */
  function YBlocks(block: MultiIndex -> string, x: nat, e: nat, n: nat): string
    requires n <= e + 1
  {
    if n == 0 then "" else YBlocks(block, x, e, n - 1) + ZBlocks(block, x, n - 1, e - (n - 1) + 1)
  }

  /** The blocks for x = 0 .. n - 1, each with y + z <= d - x: the outer loop. */
  function XBlocks(block: MultiIndex -> string, d: nat, n: nat): string
    requires n <= d + 1
  {
    if n == 0 then "" else XBlocks(block, d, n - 1) + YBlocks(block, n - 1, d - (n - 1), d - (n - 1) + 1)
  }

  /** The whole function GenerateChainRuleFunc writes for derivatives up to order d. */
  function ChainRuleText(name: string, func: seq<string>, d: nat): string
    requires |func| > d
  {
    Header(name, func[0]) + XBlocks(BlockOf(func), d, d + 1) + Footer
  }

  /** The blocks of a list of multi-indices, one after the other. */
  function BlocksText(block: MultiIndex -> string, ms: seq<MultiIndex>): string
  {
    if |ms| == 0 then "" else block(ms[0]) + BlocksText(block, ms[1..])
  }

  /** The blocks of a concatenation are the concatenation of the blocks. */
  lemma {:induction false} BlocksAppend(block: MultiIndex -> string, a: seq<MultiIndex>, b: seq<MultiIndex>)
    ensures BlocksText(block, a + b) == BlocksText(block, a) + BlocksText(block, b)
  {
    if |a| == 0 {
      assert a + b == b;
    } else {
      BlocksAppend(block, a[1..], b);
      assert (a + b)[1..] == a[1..] + b;
      AppendAssoc(block(a[0]), BlocksText(block, a[1..]), BlocksText(block, b));
    }
  }

  /** BlocksAppend for a list known to be the concatenation of a and b. */
  lemma BlocksSplit(block: MultiIndex -> string, s: seq<MultiIndex>, a: seq<MultiIndex>, b: seq<MultiIndex>)
    requires s == a + b
    ensures BlocksText(block, s) == BlocksText(block, a) + BlocksText(block, b)
  {
    BlocksAppend(block, a, b);
  }

  lemma {:induction false} ZBlocksCover(block: MultiIndex -> string, x: nat, y: nat, n: nat)
    ensures ZBlocks(block, x, y, n) == BlocksText(block, ZRun(x, y, n))
  {
    if n > 0 {
      ZBlocksCover(block, x, y, n - 1);
      BlocksSplit(block, ZRun(x, y, n), ZRun(x, y, n - 1), [MultiIndex(x, y, n - 1)]);
      assert BlocksText(block, [MultiIndex(x, y, n - 1)]) == block(MultiIndex(x, y, n - 1)) by {
        assert [MultiIndex(x, y, n - 1)][1..] == [];
      }
    }
  }

  lemma {:induction false} YBlocksCover(block: MultiIndex -> string, x: nat, e: nat, n: nat)
    requires n <= e + 1
    ensures YBlocks(block, x, e, n) == BlocksText(block, YRun(x, e, n))
  {
    if n > 0 {
      YBlocksCover(block, x, e, n - 1);
      ZBlocksCover(block, x, n - 1, e - (n - 1) + 1);
      BlocksSplit(block, YRun(x, e, n), YRun(x, e, n - 1), ZRun(x, n - 1, e - (n - 1) + 1));
    }
  }

  lemma {:induction false} XBlocksCover(block: MultiIndex -> string, d: nat, n: nat)
    requires n <= d + 1
    ensures XBlocks(block, d, n) == BlocksText(block, XRun(d, n))
  {
    if n > 0 {
      XBlocksCover(block, d, n - 1);
      YBlocksCover(block, n - 1, d - (n - 1), d - (n - 1) + 1);
      BlocksSplit(block, XRun(d, n), XRun(d, n - 1), YRun(n - 1, d - (n - 1), d - (n - 1) + 1));
    }
  }

  /**
   * The chain-rule function holds the block of every multi-index of order at most d,
   * in the order UpTo lists them (each exactly once, by UpToMembers and UpToDistinct).
   */
  lemma ChainRuleCovers(name: string, func: seq<string>, d: nat)
    requires |func| > d
    ensures ChainRuleText(name, func, d) == Header(name, func[0]) + BlocksText(BlockOf(func), UpTo(d)) + Footer
    ensures forall m :: m in UpTo(d) ==> m.Order() <= d && BlockOf(func)(m) == BlockText(func, m)
  {
    XBlocksCover(BlockOf(func), d, d + 1);
    forall m | m in UpTo(d) ensures m.Order() <= d {
      UpToMembers(d, m);
    }
  }

  /** Counts each group's x-, y- and z-derivations into partial_derivatives. */
  method GroupTallies(partition: array<int>, x: nat, y: nat, groupCount: int) returns (pd: array<MultiIndex>)
    requires IsRGS(partition[..]) && x + y <= partition.Length
    requires groupCount == GroupCount(partition[..])
    ensures fresh(pd)
    ensures pd[..] == Tallies(partition[..], x, y)
  {
    ghost var p := partition[..];
    var n := partition.Length;
    GroupsExact(p);
    pd := new MultiIndex[groupCount](_ => MultiIndex(0, 0, 0));
    var i := 0;
    while i < x
      invariant 0 <= i <= x
      invariant forall g :: 0 <= g < pd.Length ==> pd[g] == MultiIndex(Count(p, 0, i, g + 1), 0, 0)
    {
      var g := partition[i] - 1;
      pd[g] := pd[g].(x := pd[g].x + 1);
      i := i + 1;
    }
    while i < x + y
      invariant x <= i <= x + y
      invariant forall g :: 0 <= g < pd.Length ==>
        pd[g] == MultiIndex(Count(p, 0, x, g + 1), Count(p, x, i, g + 1), 0)
    {
      var g := partition[i] - 1;
      pd[g] := pd[g].(y := pd[g].y + 1);
      i := i + 1;
    }
    while i < n
      invariant x + y <= i <= n
      invariant forall g :: 0 <= g < pd.Length ==>
        pd[g] == MultiIndex(Count(p, 0, x, g + 1), Count(p, x, x + y, g + 1), Count(p, x + y, i, g + 1))
    {
      var g := partition[i] - 1;
      pd[g] := pd[g].(z := pd[g].z + 1);
      i := i + 1;
    }
  }

  /** The text of one term, for the partition currently held in the arrays. */
  method EmitTerm(func: seq<string>, partition: array<int>, max: array<int>, x: nat, y: nat, z: nat)
    returns (term: string)
    requires partition.Length == max.Length == x + y + z < |func|
    requires IsRGS(partition[..]) && max[..] == Maxes(partition[..])
    ensures term == TermText(func, partition[..], MultiIndex(x, y, z))
  {
    ghost var p := partition[..];
    var n := partition.Length;
    var groupCount := if partition[n - 1] >= max[n - 1] then partition[n - 1] else max[n - 1];
    GroupCountFromLast(p, max[..]);
    GroupsExact(p);
    var pd := GroupTallies(partition, x, y, groupCount);
    term := Indent + "tmp = " + ReplaceAll(func[groupCount], "x", "d.d[0]") + ";\n";
    var factors := EmitFactors(pd);
    term := term + factors;
    term := term + Indent + "result.d[" + IdxText(MultiIndex(x, y, z)) + "] += tmp;\n";
  }

  /** The `tmp *= d.d[IDX(...)]` line of every group, in label order. */
  method EmitFactors(pd: array<MultiIndex>) returns (lines: string)
    ensures lines == FactorLines(pd[..])
  {
    lines := "";
    var i := 0;
    while i < pd.Length
      invariant 0 <= i <= pd.Length
      invariant lines == FactorLines(pd[..i])
    {
      var line := Indent + "tmp *= d.d[" + IdxText(pd[i]) + "];\n";
      assert pd[..i + 1][..i] == pd[..i];
      lines := lines + line;
      i := i + 1;
    }
    assert pd[..i] == pd[..];
  }

  /** One pass of the do-while: the term for the current partition, then the next partition. */
  method EmitAndAdvance(func: seq<string>, partition: array<int>, max: array<int>, x: nat, y: nat, z: nat)
    returns (term: string, more: bool)
    requires partition != max && partition.Length == max.Length == x + y + z
    requires 0 < x + y + z < |func|
    requires IsRGS(partition[..]) && max[..] == Maxes(partition[..])
    modifies partition, max
    ensures IsRGS(partition[..]) && max[..] == Maxes(partition[..])
    ensures more ==> 0 <= Remaining(partition[..]) < Remaining(old(partition[..]))
    ensures more ==>
      TermsFrom(func, old(partition[..]), MultiIndex(x, y, z)) == term + TermsFrom(func, partition[..], MultiIndex(x, y, z))
    ensures !more ==> TermsFrom(func, old(partition[..]), MultiIndex(x, y, z)) == term
  {
    ghost var prev := partition[..];
    term := EmitTerm(func, partition, max, x, y, z);
    more := NextPartition(partition, max);
    TermsFromStep(func, prev, MultiIndex(x, y, z));
  }

  /** The do-while over the set partitions of the x + y + z derivations of one multi-index. */
  method EmitBlock(func: seq<string>, x: nat, y: nat, z: nat) returns (text: string)
    requires 0 < x + y + z < |func|
    ensures text == BlockText(func, MultiIndex(x, y, z))
  {
    ghost var m := MultiIndex(x, y, z);
    var n := x + y + z;
    var partition := new int[n](_ => 1);
    var max := new int[n](i => if i == 0 then 0 else 1);
    assert partition[..] == Ones(n) && max[..] == InitialMax(n);
    assert IsRGS(partition[..]) && max[..] == Maxes(partition[..]) by {
      InitialState(n);
    }
    text := "";
    var more := true;
    assert text + TermsFrom(func, partition[..], m) == BlockText(func, m) by {
      InitialState(n);
      assert BlockText(func, m) == TermsFrom(func, Ones(n), m);
    }
    while more
      invariant partition != max && partition.Length == max.Length == n
      invariant IsRGS(partition[..]) && max[..] == Maxes(partition[..])
      invariant more ==> text + TermsFrom(func, partition[..], m) == BlockText(func, m)
      invariant !more ==> text == BlockText(func, m)
      decreases more, Remaining(partition[..])
    {
      ghost var before := text;
      var term;
      term, more := EmitAndAdvance(func, partition, max, x, y, z);
      text := text + term;
      if more {
        AppendAssoc(before, term, TermsFrom(func, partition[..], m));
      }
    }
  }

  /** Appends the block of (x, y, z); order zero has none, its value is in the header. */
  method EmitIfNonZero(func: seq<string>, ghost block: MultiIndex -> string, x: nat, y: nat, z: nat, blocks: string)
    returns (after: string)
    requires x + y + z < |func| && Agrees(func, block)
    ensures after == blocks + block(MultiIndex(x, y, z))
  {
    if x + y + z != 0 {
      var text := EmitBlock(func, x, y, z);
      after := blocks + text;
    } else {
      assert BlockText(func, MultiIndex(x, y, z)) == "";
      after := blocks;
    }
  }

  /** The innermost loop: the blocks for z = 0 .. zend at fixed x and y, appended to blocks. */
  method EmitZRun(func: seq<string>, ghost block: MultiIndex -> string, x: nat, y: nat, zend: nat, blocks: string)
    returns (after: string)
    requires x + y + zend < |func| && Agrees(func, block)
    ensures after == blocks + ZBlocks(block, x, y, zend + 1)
  {
    after := blocks;
    var z := 0;
    while z <= zend
      invariant z <= zend + 1
      invariant after == blocks + ZBlocks(block, x, y, z)
    {
      AppendAssoc(blocks, ZBlocks(block, x, y, z), block(MultiIndex(x, y, z)));
      after := EmitIfNonZero(func, block, x, y, z, after);
      z := z + 1;
    }
  }

  /** The middle loop: the blocks for y = 0 .. yend at fixed x, each with z up to yend - y. */
  method EmitYRun(func: seq<string>, ghost block: MultiIndex -> string, x: nat, yend: nat, blocks: string)
    returns (after: string)
    requires x + yend < |func| && Agrees(func, block)
    ensures after == blocks + YBlocks(block, x, yend, yend + 1)
  {
    after := blocks;
    var y := 0;
    while y <= yend
      invariant y <= yend + 1
      invariant after == blocks + YBlocks(block, x, yend, y)
    {
      AppendAssoc(blocks, YBlocks(block, x, yend, y), ZBlocks(block, x, y, yend - y + 1));
      after := EmitZRun(func, block, x, y, yend - y, after);
      y := y + 1;
    }
  }

  /** The outer loop: the blocks for x = 0 .. d, each with y + z up to d - x. */
  method EmitXRun(func: seq<string>, ghost block: MultiIndex -> string, d: nat, blocks: string)
    returns (after: string)
    requires d < |func| && Agrees(func, block)
    ensures after == blocks + XBlocks(block, d, d + 1)
  {
    after := blocks;
    var x := 0;
    while x <= d
      invariant x <= d + 1
      invariant after == blocks + XBlocks(block, d, x)
    {
      AppendAssoc(blocks, XBlocks(block, d, x), YBlocks(block, x, d - x, d - x + 1));
      after := EmitYRun(func, block, x, d - x, after);
      x := x + 1;
    }
  }

  /** Writes the chain-rule function for derivatives of total order up to d. */
  method GenerateChainRuleFunc(name: string, func: seq<string>, d: nat) returns (code: string)
    requires |func| > d
    ensures code == ChainRuleText(name, func, d)
  {
    code := "dnum " + name + "(dnum d) {\n";
    code := code + Indent + "float tmp;\n";
    code := code + Indent + "dnum result = zero();\n";
    code := code + Indent + "result.d[0] = " + AtRealPart(func[0]) + ";\n";
    BlockOfAgrees(func);
    code := EmitXRun(func, BlockOf(func), d, code);
    code := code + Indent + "return result;\n";
    code := code + "}\n";
  }
}
