/**
 * The groups of one set partition, as the chain-rule emitter reads them: the
 * first x elements stand for derivatives in x, the next y for derivatives in
 * y and the rest for derivatives in z, and each group contributes one factor
 * whose multi-index counts its elements of each kind.
 */
module Groups {
  import opened Combinatorics
  import opened Partitions

  /** The number of groups: the largest label, which is the emitter's group_count. */
  function GroupCount(p: seq<int>): int
  {
    PrefixMax(p, |p|)
  }

  /** The emitter computes group_count from the last label and the last max entry. */
  lemma GroupCountFromLast(p: seq<int>, m: seq<int>)
    requires |p| > 0 && m == Maxes(p)
    ensures Max(p[|p| - 1], m[|m| - 1]) == GroupCount(p)
  {
  }

  /** How many of the elements lo..hi-1 carry label g. */
  function Count(p: seq<int>, lo: nat, hi: nat, g: int): (c: nat)
    requires lo <= hi <= |p|
    ensures c <= hi - lo
    decreases hi
  {
    if hi == lo then 0
    else Count(p, lo, hi - 1, g) + (if p[hi - 1] == g then 1 else 0)
  }

  /** Counts over adjacent ranges add up. */
  lemma {:induction false} CountSplit(p: seq<int>, lo: nat, mid: nat, hi: nat, g: int)
    requires lo <= mid <= hi <= |p|
    ensures Count(p, lo, mid, g) + Count(p, mid, hi, g) == Count(p, lo, hi, g)
    decreases hi
  {
    if hi > mid {
      CountSplit(p, lo, mid, hi - 1, g);
    }
  }

  /** A label that occurs in lo..hi-1 is counted at least once. */
  lemma {:induction false} CountPositive(p: seq<int>, lo: nat, hi: nat, k: nat)
    requires lo <= k < hi <= |p|
    ensures Count(p, lo, hi, p[k]) >= 1
    decreases hi
  {
    if k < hi - 1 {
      CountPositive(p, lo, hi - 1, k);
    }
  }

  /** The counts of labels 1..g over lo..hi-1. */
  function CountSum(p: seq<int>, lo: nat, hi: nat, g: nat): nat
    requires lo <= hi <= |p|
  {
    if g == 0 then 0 else CountSum(p, lo, hi, g - 1) + Count(p, lo, hi, g)
  }

  lemma {:induction false} CountSumStep(p: seq<int>, lo: nat, hi: nat, g: nat)
    requires lo <= hi < |p|
    ensures CountSum(p, lo, hi + 1, g)
         == CountSum(p, lo, hi, g) + (if 1 <= p[hi] <= g then 1 else 0)
  {
    if g > 0 {
      CountSumStep(p, lo, hi, g - 1);
    }
  }

  /** When every label in lo..hi-1 lies in 1..g, the counts of 1..g cover the range exactly. */
  lemma {:induction false} CountSumCovers(p: seq<int>, lo: nat, hi: nat, g: nat)
    requires lo <= hi <= |p|
    requires forall k :: lo <= k < hi ==> 1 <= p[k] <= g
    ensures CountSum(p, lo, hi, g) == hi - lo
    decreases hi
  {
    if hi == lo {
      CountSumZero(p, lo, g);
    } else {
      CountSumCovers(p, lo, hi - 1, g);
      CountSumStep(p, lo, hi - 1, g);
    }
  }

  lemma {:induction false} CountSumZero(p: seq<int>, lo: nat, g: nat)
    requires lo <= |p|
    ensures CountSum(p, lo, lo, g) == 0
  {
    if g > 0 {
      CountSumZero(p, lo, g - 1);
    }
  }

  /** Every label 1..PrefixMax(p, i) of a restricted growth string occurs before i. */
  lemma {:induction false} LabelsUsed(p: seq<int>, i: nat, g: int)
    requires IsRGS(p) && i <= |p| && 1 <= g <= PrefixMax(p, i)
    ensures exists k :: 0 <= k < i && p[k] == g
  {
    assert i > 0;
    assert LabelOk(p, i - 1);
    if g <= PrefixMax(p, i - 1) {
      LabelsUsed(p, i - 1, g);
      var k :| 0 <= k < i - 1 && p[k] == g;
      assert 0 <= k < i && p[k] == g;
    } else {
      assert p[i - 1] == g;
    }
  }

  /** A partition of n elements has between 1 and n groups. */
  lemma GroupCountBound(p: seq<int>)
    requires IsRGS(p)
    ensures 1 <= GroupCount(p) <= |p|
  {
    RGSPrefixMaxBound(p, |p|);
    assert LabelOk(p, 0);
    PrefixMaxMonotone(p, 1, |p|);
  }

  /** The labels of a restricted growth string are exactly 1..GroupCount, and there are at most |p| groups. */
  lemma GroupsExact(p: seq<int>)
    requires IsRGS(p)
    ensures 1 <= GroupCount(p) <= |p|
    ensures forall k :: 0 <= k < |p| ==> 1 <= p[k] <= GroupCount(p)
    ensures forall g :: 1 <= g <= GroupCount(p) ==> Count(p, 0, |p|, g) >= 1
  {
    GroupCountBound(p);
    forall k | 0 <= k < |p| ensures 1 <= p[k] <= GroupCount(p) {
      assert LabelOk(p, k);
      PrefixMaxMonotone(p, k + 1, |p|);
    }
    forall g | 1 <= g <= GroupCount(p) ensures Count(p, 0, |p|, g) >= 1 {
      LabelsUsed(p, |p|, g);
      var k :| 0 <= k < |p| && p[k] == g;
      CountPositive(p, 0, |p|, k);
    }
  }

  /** Group g's multi-index: its elements among the x-, the y- and the z-derivations. */
  function Tally(p: seq<int>, x: nat, y: nat, g: int): MultiIndex
    requires x + y <= |p|
  {
    MultiIndex(Count(p, 0, x, g), Count(p, x, x + y, g), Count(p, x + y, |p|, g))
  }

  /** One multi-index per group, in label order: the emitter's partial_derivatives. */
  function Tallies(p: seq<int>, x: nat, y: nat): (t: seq<MultiIndex>)
    requires x + y <= |p|
    ensures |t| == if GroupCount(p) < 0 then 0 else GroupCount(p)
  {
    seq(if GroupCount(p) < 0 then 0 else GroupCount(p), g requires g >= 0 => Tally(p, x, y, g + 1))
  }

  /** Componentwise sum of multi-indices. */
  function Total(t: seq<MultiIndex>): MultiIndex
  {
    if t == [] then MultiIndex(0, 0, 0)
    else
      var s := Total(t[..|t| - 1]);
      var m := t[|t| - 1];
      MultiIndex(s.x + m.x, s.y + m.y, s.z + m.z)
  }

  lemma {:induction false} TotalOfTallies(p: seq<int>, x: nat, y: nat, g: nat)
    requires x + y <= |p| && g <= |Tallies(p, x, y)|
    ensures Total(Tallies(p, x, y)[..g])
         == MultiIndex(CountSum(p, 0, x, g), CountSum(p, x, x + y, g), CountSum(p, x + y, |p|, g))
  {
    if g > 0 {
      TotalOfTallies(p, x, y, g - 1);
      assert Tallies(p, x, y)[..g][..g - 1] == Tallies(p, x, y)[..g - 1];
    }
  }

  /**
   * For a partition of x + y + z derivations, every group is non-empty and
   * the group multi-indices add up to (x, y, z): the product the emitter
   * writes for one partition is a product of genuine derivatives whose
   * orders together make up the requested one.
   */
  lemma TalliesPartition(p: seq<int>, x: nat, y: nat)
    requires IsRGS(p) && x + y <= |p|
    ensures |Tallies(p, x, y)| == GroupCount(p) <= |p|
    ensures Total(Tallies(p, x, y)) == MultiIndex(x, y, |p| - x - y)
    ensures forall g :: 0 <= g < |Tallies(p, x, y)| ==> Tallies(p, x, y)[g].Order() >= 1
  {
    var t := Tallies(p, x, y);
    var n := GroupCount(p);
    GroupsExact(p);
    TotalOfTallies(p, x, y, n);
    assert t[..n] == t;
    CountSumCovers(p, 0, x, n);
    CountSumCovers(p, x, x + y, n);
    CountSumCovers(p, x + y, |p|, n);
    forall g | 0 <= g < |t| ensures t[g].Order() >= 1 {
      CountSplit(p, 0, x, x + y, g + 1);
      CountSplit(p, 0, x + y, |p|, g + 1);
    }
  }
}
