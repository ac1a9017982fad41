/**
 * The four recursive traversals of `RecMinFind`, over the array as a sequence and a
 * start index. Each recursion moves the index towards the end (`|a| - index` decreases).
 */
module Aggregator {
  import opened Int32

  function Min(x: int, y: int): int {
    if x <= y then x else y
  }

  function Max(x: int, y: int): int {
    if x >= y then x else y
  }

  /**
   * `findMin`: the base case is the last index. From an index at or past `|a|`
   * (index 0 of an empty array in particular) `findMin` recurses without end; from a
   * negative index it reaches the base case and then reads outside the array.
   */
  function FindMin(a: seq<int>, index: int): (m: int)
    requires 0 <= index < |a|
    ensures m in a[index..]
    ensures forall j :: index <= j < |a| ==> m <= a[j]
    decreases |a| - index
  {
    if index == |a| - 1 then a[index] else Min(a[index], FindMin(a, index + 1))
  }

  /** `findMax`: symmetric to `FindMin`. */
  function FindMax(a: seq<int>, index: int): (m: int)
    requires 0 <= index < |a|
    ensures m in a[index..]
    ensures forall j :: index <= j < |a| ==> a[j] <= m
    decreases |a| - index
  {
    if index == |a| - 1 then a[index] else Max(a[index], FindMax(a, index + 1))
  }

  /** The mathematical sum of a sequence. */
  function Sum(s: seq<int>): int
  {
    if s == [] then 0 else s[0] + Sum(s[1..])
  }

  /** `sumArray`: every `+` is a Java `int` addition and wraps around on overflow. */
  function SumArray(a: seq<int>, index: int): (r: int)
    requires 0 <= index <= |a|
    ensures InRange(r)
    decreases |a| - index
  {
    if index == |a| then 0 else Wrap(a[index] + SumArray(a, index + 1))
  }

  /** `countNegatives`: one for each negative element from `index` on. */
  function CountNegatives(a: seq<int>, index: int): (r: nat)
    requires 0 <= index <= |a|
    ensures r <= |a| - index
    decreases |a| - index
  {
    if index == |a| then 0
    else
      var countRest := CountNegatives(a, index + 1);
      if a[index] < 0 then 1 + countRest else countRest
  }

  /** Positions from `index` on that hold a negative value. */
  ghost function NegativePositions(a: seq<int>, index: int): set<int>
    requires 0 <= index <= |a|
  {
    set j | index <= j < |a| && a[j] < 0
  }

  /** The minimum is the unique value that belongs to `a[index..]` and bounds it from below. */
  lemma MinIsUnique(a: seq<int>, index: int, m: int)
    requires 0 <= index < |a|
    requires m in a[index..] && forall j :: index <= j < |a| ==> m <= a[j]
    ensures m == FindMin(a, index)
  {
  }

  /** The maximum is the unique value that belongs to `a[index..]` and bounds it from above. */
  lemma MaxIsUnique(a: seq<int>, index: int, m: int)
    requires 0 <= index < |a|
    requires m in a[index..] && forall j :: index <= j < |a| ==> a[j] <= m
    ensures m == FindMax(a, index)
  {
  }

  /** On a non-empty array the minimum never exceeds the maximum. */
  lemma MinLeMax(a: seq<int>)
    requires |a| > 0
    ensures FindMin(a, 0) <= FindMax(a, 0)
  {
  }

  /** Sum splits at any point. */
  lemma {:induction false} SumSplit(s: seq<int>, k: nat)
    requires k <= |s|
    ensures Sum(s) == Sum(s[..k]) + Sum(s[k..])
  {
    if k == 0 {
      assert s[..k] == [] && s[k..] == s;
    } else {
      SumSplit(s[1..], k - 1);
      assert s[1..][..k - 1] == s[..k][1..];
      assert s[1..][k - 1..] == s[k..];
    }
  }

  /** `sumArray` is the mathematical sum of `a[index..]`, wrapped to a Java `int`. */
  lemma {:induction false} SumArrayWraps(a: seq<int>, index: int)
    requires 0 <= index <= |a|
    ensures SumArray(a, index) == Wrap(Sum(a[index..]))
    decreases |a| - index
  {
    if index < |a| {
      SumArrayWraps(a, index + 1);
      assert a[index..][1..] == a[index + 1..];
      WrapAdd(a[index], Sum(a[index + 1..]));
    }
  }

  /**
   * The whole-array sum split at `k`; when the true sum fits a Java `int`,
   * `sumArray(a, 0)` equals it exactly, whatever the partial sums did.
   */
  lemma {:induction false} SumArraySplit(a: seq<int>, k: nat)
    requires k <= |a|
    ensures SumArray(a, 0) == Wrap(Sum(a[..k]) + Sum(a[k..]))
    ensures InRange(Sum(a)) ==> SumArray(a, 0) == Sum(a)
  {
    SumArrayWraps(a, 0);
    assert a[0..] == a;
    var total := Sum(a);
    assert SumArray(a, 0) == Wrap(total);
    SumSplit(a, k);
    assert total == Sum(a[..k]) + Sum(a[k..]);
  }

  /** `countNegatives(a, index)` is the number of positions from `index` on holding a negative value. */
  lemma {:induction false} CountNegativesCounts(a: seq<int>, index: int)
    requires 0 <= index <= |a|
    ensures CountNegatives(a, index) == |NegativePositions(a, index)|
    decreases |a| - index
  {
    if index == |a| {
      assert NegativePositions(a, index) == {};
    } else {
      CountNegativesCounts(a, index + 1);
      var rest := NegativePositions(a, index + 1);
      assert index !in rest;
      if a[index] < 0 {
        assert NegativePositions(a, index) == rest + {index};
      } else {
        assert NegativePositions(a, index) == rest;
      }
    }
  }

  /** A non-empty array has a negative element exactly when its minimum is negative. */
  lemma CountNegativesMin(a: seq<int>)
    requires |a| > 0
    ensures CountNegatives(a, 0) > 0 <==> FindMin(a, 0) < 0
  {
    CountNegativesCounts(a, 0);
    var k :| 0 <= k < |a| && a[k] == FindMin(a, 0);
    if FindMin(a, 0) < 0 {
      assert k in NegativePositions(a, 0);
    } else {
      assert NegativePositions(a, 0) == {};
    }
  }
}
