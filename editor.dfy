/**
 * The editor's use of the chain-rule emitter (app.cpp): the derivative order the user picks and
 * the three library functions generated from it, each from a list of four derivative texts.
 */
module Editor {
  import opened Partitions
  import opened Groups
  import opened ShaderLib

  /** f, f', f'' and f''' for the square root, as the editor lists them. */
  const SqrtTexts: seq<string> :=
    ["sqrt(x)", "1/(2*sqrt(x))", "-1.0/4 * 1/sqrt(x*x*x)", "3.0/8 * 1/sqrt(x*x*x*x*x)"]
  const SinTexts: seq<string> := ["sin(x)", "cos(x)", "-sin(x)", "-cos(x)"]
  const CosTexts: seq<string> := ["cos(x)", "-sin(x)", "-cos(x)", "sin(x)"]

  /** The derivative order the editor keeps, as written: raised to 1, never capped. */
  function OrderAsWritten(requested: int): (d: int)
    ensures d >= 1 && (requested >= 1 ==> d == requested)
  {
    if requested < 1 then 1 else requested
  }

  /** The partition that puts every element of {1..n} in its own group. */
  function Singletons(n: nat): (r: seq<int>)
    ensures |r| == n && forall i :: 0 <= i < n ==> r[i] == i + 1
  {
    seq(n, i => i + 1)
  }

  lemma {:induction false} SingletonsMax(n: nat, i: nat)
    requires i <= n
    ensures PrefixMax(Singletons(n), i) == i
  {
    if i > 0 {
      SingletonsMax(n, i - 1);
    }
  }

  /**
   * At total order d the emitter enumerates the partition into d singletons, whose group count
   * is d: the block of order d reads `func[d]`, so the emitter needs more than d texts.
   */
  lemma TopPartitionReads(d: nat)
    requires d > 0
    ensures Singletons(d) in Enumerate(Ones(d)) && GroupCount(Singletons(d)) == d
  {
    var s := Singletons(d);
    forall i | 0 <= i < d
      ensures LabelOk(s, i)
    {
      SingletonsMax(d, i);
    }
    SingletonsMax(d, d);
    EnumerateAllOnce(d);
  }

  /**
   * As written, an order of 4 is kept as it is, and its partition into four singletons has group
   * count 4: the emitter would read the fifth text of a list of four.
   */
  lemma OrderOverflowsAsWritten()
    ensures var d := OrderAsWritten(4);
      d == |SqrtTexts| == |SinTexts| == |CosTexts| &&
      Singletons(d) in Enumerate(Ones(d)) && GroupCount(Singletons(d)) == |SqrtTexts|
  {
    TopPartitionReads(4);
  }

  /** The highest order the four texts support. */
  const MaxOrder := 3

  /** The derivative order kept by the corrected rule: raised to 1 and capped at `MaxOrder`. */
  function ClampOrder(requested: int): (d: nat)
    ensures 1 <= d <= MaxOrder
    ensures 1 <= requested <= MaxOrder ==> d == requested
    ensures requested > MaxOrder ==> d == MaxOrder
  {
    if requested < 1 then 1 else if requested > MaxOrder then MaxOrder else requested
  }

  /**
   * The three chain-rule functions the editor writes, with the corrected order: every order the
   * user can pick meets the emitter's need for more texts than the order.
   */
  method GenerateChainLibrary(requested: int) returns (code: string)
    ensures var d := ClampOrder(requested);
      code == ChainRuleText("dsqrt", SqrtTexts, d) + ChainRuleText("dsin", SinTexts, d) +
              ChainRuleText("dcos", CosTexts, d)
  {
    var d := ClampOrder(requested);
    var dsqrt := GenerateChainRuleFunc("dsqrt", SqrtTexts, d);
    var dsin := GenerateChainRuleFunc("dsin", SinTexts, d);
    var dcos := GenerateChainRuleFunc("dcos", CosTexts, d);
    code := dsqrt + dsin + dcos;
  }
}
