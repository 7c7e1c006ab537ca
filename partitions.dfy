/**
 * Set partitions of {1..N} written as restricted growth strings, the
 * representation the chain-rule emitter enumerates: p[i] is the label of the
 * group that holds element i + 1, p[0] = 1, and each label is at most one more
 * than the largest label before it.
 */
module Partitions {
  import opened Wrappers
  import opened Combinatorics

  function Max(a: int, b: int): int { if a >= b then a else b }

  /** The largest label in p[0..i), and 0 for the empty prefix: the emitter's max[i]. */
  function PrefixMax(p: seq<int>, i: nat): int
    requires i <= |p|
  {
    if i == 0 then 0 else Max(PrefixMax(p, i - 1), p[i - 1])
  }

  /** The whole max vector the emitter keeps beside a partition. */
  function Maxes(p: seq<int>): (m: seq<int>)
    ensures |m| == |p|
  {
    seq(|p|, i requires 0 <= i < |p| => PrefixMax(p, i))
  }

  /** Element i + 1 is in an existing group or opens the next new one. */
  predicate LabelOk(p: seq<int>, i: nat)
    requires i < |p|
  {
    1 <= p[i] <= PrefixMax(p, i) + 1
  }

  /** A restricted growth string: the canonical labelling of one set partition. */
  predicate IsRGS(p: seq<int>)
  {
    |p| > 0 && forall i :: 0 <= i < |p| ==> LabelOk(p, i)
  }

  /** The first partition: every element in group 1. */
  function Ones(n: nat): (r: seq<int>)
    ensures |r| == n && forall i :: 0 <= i < n ==> r[i] == 1
  {
    seq(n, _ => 1)
  }

  /** The emitter's initial max vector: 0 followed by ones. */
  function InitialMax(n: nat): (r: seq<int>)
    ensures |r| == n
  {
    seq(n, i => if i == 0 then 0 else 1)
  }

  /** The emitter's starting pair is a valid partition with its max vector. */
  lemma InitialState(n: nat)
    requires n > 0
    ensures IsRGS(Ones(n)) && Maxes(Ones(n)) == InitialMax(n)
  {
    var p := Ones(n);
    assert forall i :: 1 <= i <= n ==> PrefixMax(p, i) == 1 by {
      forall i | 1 <= i <= n ensures PrefixMax(p, i) == 1 {
        OnesPrefixMax(n, i);
      }
    }
  }

  lemma {:induction false} OnesPrefixMax(n: nat, i: nat)
    requires 1 <= i <= n
    ensures PrefixMax(Ones(n), i) == 1
  {
    if i > 1 { OnesPrefixMax(n, i - 1); }
  }

  lemma {:induction false} PrefixMaxNonNegative(p: seq<int>, i: nat)
    requires i <= |p|
    ensures PrefixMax(p, i) >= 0
  {
    if i > 0 { PrefixMaxNonNegative(p, i - 1); }
  }

  /** max[i] depends on p[0..i) only. */
  lemma {:induction false} PrefixMaxAgrees(p: seq<int>, q: seq<int>, i: nat)
    requires i <= |p| && i <= |q| && p[..i] == q[..i]
    ensures PrefixMax(p, i) == PrefixMax(q, i)
  {
    if i > 0 {
      assert p[..i - 1] == p[..i][..i - 1];
      assert q[..i - 1] == q[..i][..i - 1];
      assert p[i - 1] == p[..i][i - 1];
      assert q[i - 1] == q[..i][i - 1];
      PrefixMaxAgrees(p, q, i - 1);
    }
  }

  lemma {:induction false} PrefixMaxMonotone(p: seq<int>, i: nat, j: nat)
    requires i <= j <= |p|
    ensures PrefixMax(p, i) <= PrefixMax(p, j)
    decreases j - i
  {
    if i < j { PrefixMaxMonotone(p, i, j - 1); }
  }

  /** In a restricted growth string the labels before position i are at most i. */
  lemma {:induction false} RGSPrefixMaxBound(p: seq<int>, i: nat)
    requires IsRGS(p) && i <= |p|
    ensures PrefixMax(p, i) <= i
  {
    if i > 0 {
      RGSPrefixMaxBound(p, i - 1);
      assert LabelOk(p, i - 1);
    }
  }

  lemma RGSEntryBound(p: seq<int>)
    requires IsRGS(p)
    ensures forall i :: 0 <= i < |p| ==> 1 <= p[i] <= i + 1 <= |p|
  {
    forall i | 0 <= i < |p| ensures 1 <= p[i] <= i + 1 {
      RGSPrefixMaxBound(p, i);
      assert LabelOk(p, i);
    }
  }

  // ---------------------------------------------------------------------
  // Lexicographic order

  /** a and b agree before position k and a is smaller at k. */
  predicate LexLessAt(a: seq<int>, b: seq<int>, k: nat)
  {
    k < |a| && k < |b| && a[..k] == b[..k] && a[k] < b[k]
  }

  predicate LexLess(a: seq<int>, b: seq<int>)
  {
    exists k: nat :: k < |a| && LexLessAt(a, b, k)
  }

  /** If a precedes b, b is not smaller than a at any position. */
  lemma LexAsymmetricAt(a: seq<int>, b: seq<int>, j: nat)
    requires LexLess(a, b)
    ensures !LexLessAt(b, a, j)
  {
    var k: nat :| k < |a| && LexLessAt(a, b, k);
    if j < k {
      assert a[j] == a[..k][j] == b[..k][j] == b[j];
    } else if k < j && j < |a| && j < |b| {
      assert a[..j][k] != b[..j][k];
    }
  }

  lemma LexAsymmetric(a: seq<int>, b: seq<int>)
    requires LexLess(a, b)
    ensures !LexLess(b, a)
  {
    forall j: nat | j < |b| ensures !LexLessAt(b, a, j) {
      LexAsymmetricAt(a, b, j);
    }
  }

  lemma LexTransitive(a: seq<int>, b: seq<int>, c: seq<int>)
    requires LexLess(a, b) && LexLess(b, c)
    ensures LexLess(a, c)
  {
    var k: nat :| k < |a| && LexLessAt(a, b, k);
    var j: nat :| j < |b| && LexLessAt(b, c, j);
    if k < j {
      assert b[k] == b[..j][k] == c[..j][k] == c[k];
      assert a[..k] == c[..k] by {
        assert b[..k] == b[..j][..k];
        assert c[..k] == c[..j][..k];
      }
      assert LexLessAt(a, c, k);
    } else if j < k {
      assert a[j] == a[..k][j] == b[..k][j] == b[j];
      assert a[..j] == c[..j] by {
        assert a[..j] == a[..k][..j];
        assert b[..j] == b[..k][..j];
      }
      assert LexLessAt(a, c, j);
    } else {
      assert LexLessAt(a, c, k);
    }
  }

  /** Two different strings of the same length are ordered one way or the other. */
  lemma {:induction false} LexTotal(a: seq<int>, b: seq<int>)
    requires |a| == |b| && a != b
    ensures LexLess(a, b) || LexLess(b, a)
    decreases |a|
  {
    if a[0] != b[0] {
      assert a[..0] == b[..0];
      if a[0] < b[0] { assert LexLessAt(a, b, 0); } else { assert LexLessAt(b, a, 0); }
    } else {
      assert a == [a[0]] + a[1..] && b == [b[0]] + b[1..];
      LexTotal(a[1..], b[1..]);
      if LexLess(a[1..], b[1..]) {
        var k: nat :| k < |a[1..]| && LexLessAt(a[1..], b[1..], k);
        assert a[..k + 1] == [a[0]] + a[1..][..k];
        assert b[..k + 1] == [b[0]] + b[1..][..k];
        assert LexLessAt(a, b, k + 1);
      } else {
        var k: nat :| k < |b[1..]| && LexLessAt(b[1..], a[1..], k);
        assert a[..k + 1] == [a[0]] + a[1..][..k];
        assert b[..k + 1] == [b[0]] + b[1..][..k];
        assert LexLessAt(b, a, k + 1);
      }
    }
  }

  // ---------------------------------------------------------------------
  // The successor

  /** The largest position j in 1..i whose label can still grow (p[j] <= max[j]). */
  function Pivot(p: seq<int>, i: nat): (r: Option<nat>)
    requires i < |p|
    ensures r.Some? ==> 1 <= r.value <= i
  {
    if i == 0 then None
    else if p[i] <= PrefixMax(p, i) then Some(i)
    else Pivot(p, i - 1)
  }

  lemma {:induction false} PivotFacts(p: seq<int>, i: nat)
    requires i < |p|
    ensures Pivot(p, i).Some? ==>
      var j := Pivot(p, i).value;
      1 <= j <= i && p[j] <= PrefixMax(p, j) &&
      forall k :: j < k <= i ==> p[k] > PrefixMax(p, k)
    ensures Pivot(p, i).None? ==> forall k :: 1 <= k <= i ==> p[k] > PrefixMax(p, k)
  {
    if i > 0 && p[i] > PrefixMax(p, i) { PivotFacts(p, i - 1); }
  }

  /**
   * The partition after p in the enumeration, or None after the last one: the
   * pivot's label grows by one and every later element returns to group 1.
   */
  function NextRGS(p: seq<int>): Option<seq<int>>
    requires |p| > 0
  {
    match Pivot(p, |p| - 1)
    case None => None
    case Some(i) => Some(p[..i] + [p[i] + 1] + Ones(|p| - i - 1))
  }

  /** The successor is again a restricted growth string of the same length, and larger. */
  lemma NextRGSValid(p: seq<int>)
    requires IsRGS(p) && NextRGS(p).Some?
    ensures var q := NextRGS(p).value;
      IsRGS(q) && |q| == |p| && LexLess(p, q)
  {
    PivotFacts(p, |p| - 1);
    var i := Pivot(p, |p| - 1).value;
    var q := NextRGS(p).value;
    assert q[..i] == p[..i];
    forall k | 0 <= k < |q| ensures LabelOk(q, k) {
      if k <= i {
        assert q[..k] == p[..k] by { assert q[..k] == q[..i][..k] && p[..k] == p[..i][..k]; }
        PrefixMaxAgrees(p, q, k);
        assert LabelOk(p, k);
      } else {
        PrefixMaxNonNegative(q, k);
      }
    }
    assert LexLessAt(p, q, i);
  }

  /** No restricted growth string lies strictly between p and its successor. */
  lemma NextRGSImmediate(p: seq<int>, r: seq<int>)
    requires IsRGS(p) && NextRGS(p).Some?
    requires IsRGS(r) && |r| == |p| && LexLess(p, r)
    ensures !LexLess(r, NextRGS(p).value)
  {
    PivotFacts(p, |p| - 1);
    var i := Pivot(p, |p| - 1).value;
    var q := NextRGS(p).value;
    assert q[..i] == p[..i];
    forall j: nat | j < |r| ensures !LexLessAt(r, q, j) {
      if j < i {
        assert q[j] == p[j];
        assert q[..j] == p[..j] by { assert q[..j] == q[..i][..j] && p[..j] == p[..i][..j]; }
        LexAsymmetricAt(p, r, j);
      } else if j == i {
        LexAsymmetricAt(p, r, i);
        AfterPivotMaximal(p, r, i);
      } else {
        assert LabelOk(r, j);
        assert q[j] == 1;
      }
    }
  }

  /** Past the pivot every label is already maximal, so nothing sharing p's prefix through i exceeds p. */
  lemma AfterPivotMaximal(p: seq<int>, r: seq<int>, i: nat)
    requires IsRGS(p) && IsRGS(r) && |r| == |p| && i < |p|
    requires forall k :: i < k < |p| ==> p[k] > PrefixMax(p, k)
    ensures r[..i] == p[..i] && r[i] == p[i] ==> !LexLess(p, r)
  {
    if r[..i] == p[..i] && r[i] == p[i] {
      assert r[..i + 1] == p[..i + 1];
      forall k: nat | k < |p| ensures !LexLessAt(p, r, k) {
        if k <= i {
          assert p[k] == p[..i + 1][k] == r[..i + 1][k] == r[k];
        } else if p[..k] == r[..k] {
          PrefixMaxAgrees(p, r, k);
          assert LabelOk(r, k);
        }
      }
    }
  }

  /** The enumeration stops exactly at the last partition, which no string of its length exceeds. */
  lemma NextRGSNoneIsLast(p: seq<int>, r: seq<int>)
    requires IsRGS(p) && NextRGS(p).None?
    requires IsRGS(r) && |r| == |p|
    ensures !LexLess(p, r)
  {
    PivotFacts(p, |p| - 1);
    forall k: nat | k < |p| ensures !LexLessAt(p, r, k) {
      if p[..k] == r[..k] {
        PrefixMaxAgrees(p, r, k);
        assert LabelOk(p, k) && LabelOk(r, k);
      }
    }
  }

  /** All-ones is the smallest string of its length. */
  lemma OnesLeast(r: seq<int>)
    requires IsRGS(r)
    ensures !LexLess(r, Ones(|r|))
  {
    forall k: nat | k < |r| ensures !LexLessAt(r, Ones(|r|), k) {
      assert LabelOk(r, k);
    }
  }

  // ---------------------------------------------------------------------
  // A measure that the successor increases

  function Pow(b: nat, n: nat): nat
  {
    if n == 0 then 1 else Pow(b, n - 1) * b
  }

  /** p read as a number in base b, most significant digit first. */
  function Val(p: seq<int>, b: nat): int
  {
    if p == [] then 0 else Val(p[..|p| - 1], b) * b + p[|p| - 1]
  }

  predicate DigitsBelow(p: seq<int>, b: nat)
  {
    forall i :: 0 <= i < |p| ==> 0 <= p[i] < b
  }

  lemma MulLe(a: int, c: int, b: nat)
    requires a <= c
    ensures a * b <= c * b
  {
  }

  lemma {:induction false} ValBound(p: seq<int>, b: nat)
    requires DigitsBelow(p, b)
    ensures 0 <= Val(p, b) < Pow(b, |p|)
  {
    if p != [] {
      var p' := p[..|p| - 1];
      ValBound(p', b);
      MulLe(Val(p', b), Pow(b, |p'|) - 1, b);
    }
  }

  lemma {:induction false} ValLex(p: seq<int>, q: seq<int>, b: nat, k: nat)
    requires |p| == |q| && DigitsBelow(p, b) && DigitsBelow(q, b)
    requires LexLessAt(p, q, k)
    ensures Val(p, b) < Val(q, b)
    decreases |p|
  {
    var n := |p|;
    var p', q' := p[..n - 1], q[..n - 1];
    assert Val(p, b) == Val(p', b) * b + p[n - 1];
    assert Val(q, b) == Val(q', b) * b + q[n - 1];
    assert 0 <= p[n - 1] < b && 0 <= q[n - 1];
    if k == n - 1 {
      assert p' == q';
    } else {
      assert DigitsBelow(p', b) && DigitsBelow(q', b);
      assert LexLessAt(p', q', k) by {
        assert p'[..k] == p[..k] && q'[..k] == q[..k];
      }
      ValLex(p', q', b, k);
      MulLe(Val(p', b) + 1, Val(q', b), b);
      assert (Val(p', b) + 1) * b == Val(p', b) * b + b;
    }
  }

  /** Bound on the measure for strings of length n. */
  function Room(n: nat): nat { Pow(n + 1, n) }

  /** How far p is from the bound: the termination measure of the enumeration. */
  function Remaining(p: seq<int>): int
  {
    Room(|p|) - Val(p, |p| + 1)
  }

  /** The successor is strictly closer to the bound, and the distance stays non-negative. */
  lemma SuccessorGrows(p: seq<int>)
    requires IsRGS(p) && NextRGS(p).Some?
    ensures var q := NextRGS(p).value;
      |q| == |p| && 0 <= Remaining(q) < Remaining(p)
  {
    var q := NextRGS(p).value;
    NextRGSValid(p);
    RGSEntryBound(p);
    RGSEntryBound(q);
    var k: nat :| k < |p| && LexLessAt(p, q, k);
    ValLex(p, q, |p| + 1, k);
    ValBound(p, |p| + 1);
    ValBound(q, |p| + 1);
  }

  // ---------------------------------------------------------------------
  // The enumeration

  /** The partitions the emitter's do-while loop visits, starting from p. */
  function Enumerate(p: seq<int>): (r: seq<seq<int>>)
    requires IsRGS(p)
    ensures |r| > 0 && r[0] == p
    decreases Remaining(p)
  {
    match NextRGS(p)
    case None => [p]
    case Some(q) =>
      SuccessorGrows(p);
      NextRGSValid(p);
      [p] + Enumerate(q)
  }

  /** Only restricted growth strings of p's length are visited. */
  lemma {:induction false} EnumerateValid(p: seq<int>, r: seq<int>)
    requires IsRGS(p) && r in Enumerate(p)
    ensures IsRGS(r) && |r| == |p|
    decreases Remaining(p)
  {
    match NextRGS(p)
    case None =>
    case Some(q) =>
      SuccessorGrows(p);
      NextRGSValid(p);
      if r != p {
        EnumerateValid(q, r);
      }
  }

  /** Everything the enumeration visits is a restricted growth string of the starting length. */
  lemma EnumerateAllValid(p: seq<int>)
    requires IsRGS(p)
    ensures forall r :: r in Enumerate(p) ==> IsRGS(r) && |r| == |p|
  {
    forall r | r in Enumerate(p) ensures IsRGS(r) && |r| == |p| {
      EnumerateValid(p, r);
    }
  }

  /** Every earlier entry of e precedes every later one. */
  predicate Increasing(e: seq<seq<int>>)
  {
    forall i, j :: 0 <= i < j < |e| ==> LexLess(e[i], e[j])
  }

  /** Putting a string that precedes the head in front of an increasing list keeps it increasing. */
  lemma ConsIncreasing(p: seq<int>, e: seq<seq<int>>)
    requires Increasing(e) && |e| > 0 && LexLess(p, e[0])
    ensures Increasing([p] + e)
  {
    var f := [p] + e;
    forall i, j | 0 <= i < j < |f| ensures LexLess(f[i], f[j]) {
      if i == 0 {
        if j > 1 {
          LexTransitive(p, e[0], e[j - 1]);
        }
      } else {
        assert f[i] == e[i - 1] && f[j] == e[j - 1];
      }
    }
  }

  /** The enumeration visits restricted growth strings in strictly increasing order. */
  lemma {:induction false} EnumerateIncreasing(p: seq<int>)
    requires IsRGS(p)
    ensures Increasing(Enumerate(p))
    decreases Remaining(p)
  {
    match NextRGS(p)
    case None =>
    case Some(q) =>
      SuccessorGrows(p);
      NextRGSValid(p);
      EnumerateIncreasing(q);
      ConsIncreasing(p, Enumerate(q));
  }

  /** Every restricted growth string at or after p is visited. */
  lemma {:induction false} EnumerateComplete(p: seq<int>, r: seq<int>)
    requires IsRGS(p) && IsRGS(r) && |r| == |p| && !LexLess(r, p)
    ensures r in Enumerate(p)
    decreases Remaining(p)
  {
    if r != p {
      LexTotal(p, r);
      match NextRGS(p)
      case None =>
        NextRGSNoneIsLast(p, r);
      case Some(q) =>
        SuccessorGrows(p);
        NextRGSValid(p);
        NextRGSImmediate(p, r);
        EnumerateComplete(q, r);
    }
  }

  /**
   * Starting from all-ones, the enumeration visits every set partition of
   * {1..n} (every restricted growth string of length n) exactly once.
   */
  lemma EnumerateAllOnce(n: nat)
    requires n > 0
    ensures IsRGS(Ones(n))
    ensures forall r :: r in Enumerate(Ones(n)) <==> IsRGS(r) && |r| == n
    ensures var e := Enumerate(Ones(n));
      forall i, j :: 0 <= i < j < |e| ==> e[i] != e[j]
  {
    InitialState(n);
    var e := Enumerate(Ones(n));
    EnumerateIncreasing(Ones(n));
    forall r ensures r in e <==> IsRGS(r) && |r| == n {
      if r in e {
        EnumerateValid(Ones(n), r);
      }
      if IsRGS(r) && |r| == n {
        OnesLeast(r);
        EnumerateComplete(Ones(n), r);
      }
    }
    forall i, j | 0 <= i < j < |e| ensures e[i] != e[j] {
      assert LexLess(e[i], e[j]);
      LexAsymmetric(e[i], e[j]);
    }
  }
}
