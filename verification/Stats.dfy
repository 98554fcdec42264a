/**
 Medians and the rounding of the data frames.
 */
module Stats {
  import Sorting

  function AtMost(): (real, real) -> bool {
    (a: real, b: real) => a <= b
  }

  lemma AtMostIsOrder()
    ensures Sorting.TotalPreorder(AtMost())
  {
  }

  function Within(lo: real, hi: real): real -> int {
    x => if lo <= x <= hi then 1 else 0
  }

  lemma {:induction false} NoneAbove(s: seq<real>, lo: real, hi: real)
    requires forall i :: 0 <= i < |s| ==> s[i] > hi || s[i] < lo
    ensures Sorting.Sum(Within(lo, hi), s) == 0
  {
    if s != [] {
      var init := s[..|s|-1];
      assert forall i :: 0 <= i < |init| ==> init[i] == s[i];
      NoneAbove(init, lo, hi);
    }
  }

  // ------------------------------------------------ with values out of any bounds

  // The middle of values some of which are below or above every number.
  datatype Middle = Nothing | At(value: real) | Unbounded

  datatype Extended = Low | Number(value: real) | High

  // The `i`th in order: first the low ones, then the numbers of `s`, then the high ones.
  function Ranked(low: nat, s: seq<real>, i: nat): Extended {
    if i < low then Low else if i - low < |s| then Number(s[i-low]) else High
  }

  // Opposite infinities have no mean.
  function Mean(a: Extended, b: Extended): Middle {
    if a.Number? && b.Number? then At((a.value + b.value) / 2.0)
    else if (a.Low? && b.High?) || (a.High? && b.Low?) then Nothing
    else Unbounded
  }

  function MedianOf(low: nat, xs: seq<real>, high: nat): Middle {
    var s, n := Sorting.Sort(AtMost(), xs), low + |xs| + high;
    if n == 0 then Nothing
    else if n % 2 == 1 then Mean(Ranked(low, s, n / 2), Ranked(low, s, n / 2))
    else Mean(Ranked(low, s, n / 2 - 1), Ranked(low, s, n / 2))
  }

  lemma {:induction false} AllWithin(s: seq<real>, lo: real, hi: real)
    ensures Sorting.Sum(Within(lo, hi), s) <= |s|
  {
    if s != [] { AllWithin(s[..|s|-1], lo, hi); }
  }

  // Of numbers in order, those up to one that is too low are all too low,
  lemma FewAfter(s: seq<real>, lo: real, hi: real, j: nat)
    requires Sorting.Ordered(AtMost(), s) && j < |s| && s[j] < lo
    ensures Sorting.Sum(Within(lo, hi), s) < |s| - j
  {
    var below := s[..j+1];
    forall i | 0 <= i < |below| ensures below[i] < lo { if i < j { assert AtMost()(s[i], s[j]); } }
    NoneAbove(below, lo, hi);
    AllWithin(s[j+1..], lo, hi);
    assert s == below + s[j+1..];
    Sorting.SumConcat(Within(lo, hi), below, s[j+1..]);
  }

  // ... and those from one that is too high are all too high.
  lemma FewBefore(s: seq<real>, lo: real, hi: real, j: nat)
    requires Sorting.Ordered(AtMost(), s) && j < |s| && s[j] > hi
    ensures Sorting.Sum(Within(lo, hi), s) <= j
  {
    var above := s[j..];
    forall i | 0 <= i < |above| ensures above[i] > hi { if i > 0 { assert AtMost()(s[j], s[j+i]); } }
    NoneAbove(above, lo, hi);
    AllWithin(s[..j], lo, hi);
    assert s == s[..j] + above;
    Sorting.SumConcat(Within(lo, hi), s[..j], above);
  }

  lemma RankedWithin(low: nat, s: seq<real>, high: nat, lo: real, hi: real, k: nat)
    requires Sorting.Ordered(AtMost(), s) && 2 * Sorting.Sum(Within(lo, hi), s) > low + |s| + high
    requires low + |s| + high - 2 <= 2 * k <= low + |s| + high
    ensures Ranked(low, s, k).Number? && lo <= Ranked(low, s, k).value <= hi
  {
    hide Sorting.Sum, Sorting.Ordered;
    AllWithin(s, lo, hi);
    assert low <= k < low + |s|;
    var j := k - low;
    if s[j] < lo { FewAfter(s, lo, hi, j); }
    if s[j] > hi { FewBefore(s, lo, hi, j); }
  }

  // As long as more than half of all the values lie between two bounds, so does the median,
  // whatever the others are, and however many are infinite.
  lemma MedianKeepsToTheMajority(low: nat, xs: seq<real>, high: nat, lo: real, hi: real)
    requires 2 * Sorting.Sum(Within(lo, hi), xs) > low + |xs| + high
    ensures MedianOf(low, xs, high).At? && lo <= MedianOf(low, xs, high).value <= hi
  {
    hide Sorting.Sort, Sorting.Sum, Sorting.Ordered;
    AtMostIsOrder();
    Sorting.SortSorts(AtMost(), xs);
    var s, n := Sorting.Sort(AtMost(), xs), low + |xs| + high;
    Sorting.SumOfPermutation(Within(lo, hi), xs, s);
    RankedWithin(low, s, high, lo, hi, n / 2);
    if n % 2 == 0 {
      AllWithin(xs, lo, hi);
      RankedWithin(low, s, high, lo, hi, n / 2 - 1);
    }
  }

  lemma NumbersHaveMiddle(xs: seq<real>)
    requires xs != []
    ensures MedianOf(0, xs, 0).At?
  {
    AtMostIsOrder();
    Sorting.SortSorts(AtMost(), xs);
    Sorting.SameLength(xs, Sorting.Sort(AtMost(), xs));
  }

  // The middle one, or the mean of the middle two.
  function Median(xs: seq<real>): real
    requires xs != []
  {
    NumbersHaveMiddle(xs);
    MedianOf(0, xs, 0).value
  }

  // Of values in order it is the middle one, or lies half way between the middle two.
  lemma MedianOfOrdered(xs: seq<real>, s: seq<real>)
    requires xs != [] && multiset(s) == multiset(xs) && forall i, j :: 0 <= i < j < |s| ==> s[i] <= s[j]
    ensures |s| == |xs| && 2.0 * Median(xs) == s[(|s| - 1) / 2] + s[|s| / 2]
  {
    hide Sorting.Sort, Sorting.Strict;
    Sorting.SameLength(xs, s);
    SortedIs(xs, s);
  }

  lemma SortedIs(xs: seq<real>, s: seq<real>)
    requires multiset(s) == multiset(xs) && forall i, j :: 0 <= i < j < |s| ==> s[i] <= s[j]
    ensures Sorting.Sort(AtMost(), xs) == s
  {
    hide Sorting.Sort;
    AtMostIsOrder();
    Sorting.SortSorts(AtMost(), xs);
    assert Sorting.Ordered(AtMost(), s);
    Sorting.OrderedIsUnique(AtMost(), Sorting.Sort(AtMost(), xs), s);
  }

  // To the nearest whole number, halves to the even one.
  function Round(x: real): int {
    var f := x.Floor;
    var part := x - f as real;
    if part < 0.5 || (part == 0.5 && f % 2 == 0) then f else f + 1
  }

  // A value half way between two whole numbers goes to the even one.
  lemma HalvesToEven(n: int)
    ensures Round(n as real + 0.5) == if n % 2 == 0 then n else n + 1
  {
  }

  lemma RoundIsNear(x: real)
    ensures x - 0.5 <= Round(x) as real <= x + 0.5
  {
  }
}
