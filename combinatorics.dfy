/**
 * The integer tables behind the dual-number layout: triangular numbers,
 * tetrahedral numbers and binomial coefficients, and the multi-indices
 * (x, y, z) that a derivative array of order D stores.
 */
module Combinatorics {

  /** Tri(i) = 0 + 1 + ... + i. */
  function Tri(i: nat): nat
  {
    if i == 0 then 0 else Tri(i - 1) + i
  }

  /** Tetra(i) = Tri(0) + Tri(1) + ... + Tri(i). */
  function Tetra(i: nat): nat
  {
    if i == 0 then 0 else Tetra(i - 1) + Tri(i)
  }

  /** Binomial coefficients by Pascal's rule, 0 above the diagonal. */
  function Choose(n: nat, k: nat): nat
  {
    if k == 0 then 1 else if n == 0 then 0 else Choose(n - 1, k - 1) + Choose(n - 1, k)
  }

  /** The triangular numbers have the closed form i(i+1)/2. */
  lemma {:induction false} TriClosedForm(i: nat)
    ensures 2 * Tri(i) == i * (i + 1)
  {
    if i > 0 {
      TriClosedForm(i - 1);
      assert (i - 1) * i + 2 * i == i * (i + 1);
    }
  }

  /** The tetrahedral numbers have the closed form i(i+1)(i+2)/6. */
  lemma {:induction false} TetraClosedForm(i: nat)
    ensures 6 * Tetra(i) == i * (i + 1) * (i + 2)
  {
    if i > 0 {
      TetraClosedForm(i - 1);
      TriClosedForm(i);
      var p := i * (i + 1);
      assert (i - 1) * i * (i + 1) == (i - 1) * p;
      assert i * (i + 1) * (i + 2) == p * (i + 2);
      assert (i - 1) * p + 3 * p == (i + 2) * p;
    }
  }

  /** n! */
  function Fact(n: nat): (r: nat)
    ensures r >= 1
  {
    if n == 0 then 1 else n * Fact(n - 1)
  }

  /** The table's entries are the binomial coefficients n! / (k! (n - k)!). */
  lemma {:induction false} ChooseFactorial(n: nat, k: nat)
    requires k <= n
    ensures Choose(n, k) * Fact(k) * Fact(n - k) == Fact(n)
  {
    if k > 0 {
      var a := Choose(n - 1, k - 1);
      var b := Choose(n - 1, k);
      var f := Fact(n - 1);
      ChooseFactorial(n - 1, k - 1);
      ScaleFirst(a, k, Fact(k - 1), Fact(n - k));
      if k < n {
        ChooseFactorial(n - 1, k);
        ScaleLast(b, Fact(k), n - k, Fact(n - 1 - k));
      } else {
        ChooseAbove(n - 1, k);
      }
      SplitSum(a, b, Fact(k), Fact(n - k), k, n - k, f);
    }
  }

  lemma ScaleFirst(a: int, k: int, g: int, h: int)
    ensures a * (k * g) * h == k * (a * g * h)
  {
  }

  lemma ScaleLast(b: int, g: int, m: int, h: int)
    ensures b * g * (m * h) == m * (b * g * h)
  {
  }

  lemma SplitSum(a: int, b: int, g: int, h: int, k: int, m: int, f: int)
    requires a * g * h == k * f && b * g * h == m * f
    ensures (a + b) * g * h == (k + m) * f
  {
  }

  /** C(n, k) = 0 when k > n. */
  lemma {:induction false} ChooseAbove(n: nat, k: nat)
    requires k > n
    ensures Choose(n, k) == 0
  {
    if n > 0 {
      ChooseAbove(n - 1, k - 1);
      ChooseAbove(n - 1, k);
    }
  }

  lemma {:induction false} ChooseOne(n: nat)
    ensures Choose(n, 1) == n
  {
    if n > 0 { ChooseOne(n - 1); }
  }

  /** Column 2 of Pascal's triangle holds the triangular numbers. */
  lemma {:induction false} ChooseTwo(n: nat)
    ensures Choose(n + 1, 2) == Tri(n)
  {
    ChooseOne(n);
    if n == 0 {
      ChooseAbove(0, 1);
      ChooseAbove(0, 2);
    } else {
      ChooseTwo(n - 1);
    }
  }

  /** Column 3 of Pascal's triangle holds the tetrahedral numbers. */
  lemma {:induction false} ChooseThree(n: nat)
    ensures Choose(n + 2, 3) == Tetra(n)
  {
    ChooseTwo(n);
    if n == 0 {
      ChooseAbove(1, 2);
      ChooseAbove(1, 3);
    } else {
      ChooseThree(n - 1);
    }
  }

  /** A multi-index: x derivatives in direction 1, y in direction 2, z in direction 3. */
  datatype MultiIndex = MultiIndex(x: nat, y: nat, z: nat)
  {
    function Order(): nat { x + y + z }
  }

  /** (x, y, 0), (x, y, 1), ..., (x, y, n - 1): the innermost loop of the chain-rule emitter. */
  function ZRun(x: nat, y: nat, n: nat): seq<MultiIndex>
  {
    if n == 0 then [] else ZRun(x, y, n - 1) + [MultiIndex(x, y, n - 1)]
  }

  /** For y = 0 .. n - 1, the z-run up to e - y: the middle loop for a fixed x. */
  function YRun(x: nat, e: nat, n: nat): seq<MultiIndex>
    requires n <= e + 1
  {
    if n == 0 then [] else YRun(x, e, n - 1) + ZRun(x, n - 1, e - (n - 1) + 1)
  }

  /** For x = 0 .. n - 1, the y-runs up to D - x: the outer loop. */
  function XRun(d: nat, n: nat): seq<MultiIndex>
    requires n <= d + 1
  {
    if n == 0 then [] else XRun(d, n - 1) + YRun(n - 1, d - (n - 1), d - (n - 1) + 1)
  }

  /** Every multi-index of order at most d, in the order the emitter's loops visit them. */
  function UpTo(d: nat): seq<MultiIndex>
  {
    XRun(d, d + 1)
  }

  lemma {:induction false} ZRunFacts(x: nat, y: nat, n: nat)
    ensures |ZRun(x, y, n)| == n
    ensures forall i :: 0 <= i < n ==> ZRun(x, y, n)[i] == MultiIndex(x, y, i)
  {
    if n > 0 { ZRunFacts(x, y, n - 1); }
  }

  lemma {:induction false} YRunLength(x: nat, e: nat, n: nat)
    requires n <= e + 1
    ensures |YRun(x, e, n)| + Tri(e + 1 - n) == Tri(e + 1)
  {
    if n > 0 {
      YRunLength(x, e, n - 1);
      ZRunFacts(x, n - 1, e - (n - 1) + 1);
    }
  }

  lemma {:induction false} XRunLength(d: nat, n: nat)
    requires n <= d + 1
    ensures |XRun(d, n)| + Tetra(d + 1 - n) == Tetra(d + 1)
  {
    if n > 0 {
      XRunLength(d, n - 1);
      YRunLength(n - 1, d - (n - 1), d - (n - 1) + 1);
    }
  }

  /** The number of multi-indices of order at most d is Tetra(d + 1), the SIZE of a dual number. */
  lemma UpToLength(d: nat)
    ensures |UpTo(d)| == Tetra(d + 1)
  {
    XRunLength(d, d + 1);
  }

  lemma {:induction false} YRunMembers(x: nat, e: nat, n: nat, m: MultiIndex)
    requires n <= e + 1
    ensures m in YRun(x, e, n) <==> m.x == x && m.y < n && m.y + m.z <= e
  {
    if n > 0 {
      YRunMembers(x, e, n - 1, m);
      ZRunFacts(x, n - 1, e - (n - 1) + 1);
      if m.x == x && m.y == n - 1 && m.y + m.z <= e {
        assert ZRun(x, n - 1, e - (n - 1) + 1)[m.z] == m;
      }
    }
  }

  lemma {:induction false} XRunMembers(d: nat, n: nat, m: MultiIndex)
    requires n <= d + 1
    ensures m in XRun(d, n) <==> m.x < n && m.Order() <= d
  {
    if n > 0 {
      var x: nat := n - 1;
      var e: nat := d - x;
      var a := XRun(d, x);
      var b := YRun(x, e, e + 1);
      assert XRun(d, n) == a + b;
      XRunMembers(d, x, m);
      YRunMembers(x, e, e + 1, m);
      assert m in b <==> m.x == x && m.y + m.z <= e;
      assert m in a + b <==> m in a || m in b;
    }
  }

  /** UpTo(d) holds exactly the multi-indices of order at most d. */
  lemma UpToMembers(d: nat, m: MultiIndex)
    ensures m in UpTo(d) <==> m.Order() <= d
  {
    XRunMembers(d, d + 1, m);
  }

  predicate LexLess(a: MultiIndex, b: MultiIndex)
  {
    a.x < b.x || (a.x == b.x && (a.y < b.y || (a.y == b.y && a.z < b.z)))
  }

  predicate StrictlyIncreasing(s: seq<MultiIndex>)
  {
    forall i, j :: 0 <= i < j < |s| ==> LexLess(s[i], s[j])
  }

  lemma {:induction false} YRunIncreasing(x: nat, e: nat, n: nat)
    requires n <= e + 1
    ensures StrictlyIncreasing(YRun(x, e, n))
    ensures forall m :: m in YRun(x, e, n) ==> m.x == x && m.y < n
  {
    if n > 0 {
      YRunIncreasing(x, e, n - 1);
      var z := ZRun(x, n - 1, e - (n - 1) + 1);
      ZRunFacts(x, n - 1, e - (n - 1) + 1);
      var a := YRun(x, e, n - 1);
      assert YRun(x, e, n) == a + z;
      forall i, j | 0 <= i < j < |a + z|
        ensures LexLess((a + z)[i], (a + z)[j])
      {
        if j < |a| {
        } else if i >= |a| {
          assert (a + z)[i] == z[i - |a|];
        } else {
          assert (a + z)[i] in a;
        }
      }
    }
  }

  lemma {:induction false} XRunIncreasing(d: nat, n: nat)
    requires n <= d + 1
    ensures StrictlyIncreasing(XRun(d, n))
    ensures forall m :: m in XRun(d, n) ==> m.x < n
  {
    if n > 0 {
      XRunIncreasing(d, n - 1);
      var a := XRun(d, n - 1);
      var b := YRun(n - 1, d - (n - 1), d - (n - 1) + 1);
      YRunIncreasing(n - 1, d - (n - 1), d - (n - 1) + 1);
      forall i, j | 0 <= i < j < |a + b|
        ensures LexLess((a + b)[i], (a + b)[j])
      {
        if j < |a| {
        } else if i >= |a| {
          assert (a + b)[i] == b[i - |a|];
          assert (a + b)[j] == b[j - |a|];
        } else {
          assert (a + b)[i] in a;
          assert (a + b)[j] in b;
        }
      }
    }
  }

  /** The emitter's loops visit each multi-index at most once: UpTo(d) has no repeats. */
  lemma UpToDistinct(d: nat)
    ensures forall i, j :: 0 <= i < j < |UpTo(d)| ==> UpTo(d)[i] != UpTo(d)[j]
  {
    XRunIncreasing(d, d + 1);
  }
}
