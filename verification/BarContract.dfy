/**
 The contract a series of bars is checked against, and the backfill that sorts, checks
 and classifies one.
 */
module BarContract {
  import Sorting
  import Stats

  datatype Option<T> = None | Some(value: T)

  // A price that is a finite number, or anything else.
  datatype Price = Finite(x: real) | NotFinite

  datatype Bar = Bar(ts: int, open: Price, high: Price, low: Price, close: Price)

  const MAX_GAP_MULTIPLE: real := 4.5

  datatype Violation =
    | NonEmpty
    | PricesFinite(n: nat)
    | HighGeLow(n: nat)
    | UniqueTimestamps(n: nat)
    | Monotonic(n: nat)
    | Coverage(got: nat, requested: int)
    | NoGaps

  predicate Fatal(v: Violation) { !v.Coverage? && !v.NoGaps? }

  datatype Check = MonotonicCheck | HighGeLowCheck | NoGapsCheck | CoverageCheck

  datatype Contract = Contract(passed: bool, violations: seq<Violation>, notEvaluated: seq<Check>)

  // ---------------------------------------------------------------- one bar, one pair

  predicate Priced(b: Bar) {
    b.open.Finite? && b.high.Finite? && b.low.Finite? && b.close.Finite? && b.close.x > 0.0
  }

  predicate Inverted(b: Bar) { b.high.Finite? && b.low.Finite? && b.high.x < b.low.x }

  function Unpriced(): Bar -> int { (b: Bar) => if Priced(b) then 0 else 1 }

  function InvertedOne(): Bar -> int { (b: Bar) => if Inverted(b) then 1 else 0 }

  // Neighbours with one timestamp, and neighbours that go back.
  function Duplicates(rows: seq<Bar>): int {
    if |rows| < 2 then 0
    else Duplicates(rows[..|rows|-1]) + (if rows[|rows|-1].ts == rows[|rows|-2].ts then 1 else 0)
  }

  function Backwards(rows: seq<Bar>): int {
    if |rows| < 2 then 0
    else Backwards(rows[..|rows|-1]) + (if rows[|rows|-1].ts < rows[|rows|-2].ts then 1 else 0)
  }

  lemma {:induction false} CountsAreNat(rows: seq<Bar>)
    ensures Sorting.Sum(Unpriced(), rows) >= 0 && Sorting.Sum(InvertedOne(), rows) >= 0
    ensures Duplicates(rows) >= 0 && Backwards(rows) >= 0
  {
    if |rows| != 0 { CountsAreNat(rows[..|rows|-1]); }
  }

  // ---------------------------------------------------------------------- the gaps

  function Spacings(rows: seq<Bar>): (r: seq<real>)
    ensures |r| == if |rows| == 0 then 0 else |rows| - 1
  {
    if |rows| < 2 then []
    else Spacings(rows[..|rows|-1]) + [(rows[|rows|-1].ts - rows[|rows|-2].ts) as real]
  }

  function Largest(xs: seq<real>): (m: real)
    requires xs != []
    ensures m in xs && forall i :: 0 <= i < |xs| ==> xs[i] <= m
  {
    if |xs| == 1 then xs[0]
    else
      var m := Largest(xs[..|xs|-1]);
      if xs[|xs|-1] > m then xs[|xs|-1] else m
  }

  predicate Gapped(rows: seq<Bar>) {
    && |rows| >= 5
    && var median := Stats.Median(Spacings(rows));
       median > 0.0 && Largest(Spacings(rows)) > median * MAX_GAP_MULTIPLE
  }

  predicate Short(rows: seq<Bar>, requested: Option<int>) {
    requested.Some? && requested.value != 0 && (|rows| as real) < requested.value as real * 0.5
  }

  function Listed(v: Violation, found: bool): seq<Violation> { if found then [v] else [] }

  function AsNat(n: int): nat { if n > 0 then n else 0 }

  // The violations, in the order they are reported.
  function Violations(rows: seq<Bar>, requested: Option<int>): seq<Violation> {
    var unpriced, inverted := Sorting.Sum(Unpriced(), rows), Sorting.Sum(InvertedOne(), rows);
    Listed(PricesFinite(AsNat(unpriced)), unpriced > 0)
    + Listed(HighGeLow(AsNat(inverted)), inverted > 0)
    + Listed(UniqueTimestamps(AsNat(Duplicates(rows))), Duplicates(rows) > 0)
    + Listed(Monotonic(AsNat(Backwards(rows))), Backwards(rows) > 0)
    + Listed(Coverage(|rows|, if requested.Some? then requested.value else 0), Short(rows, requested))
    + Listed(NoGaps, Gapped(rows))
  }

  predicate NoFatal(vs: seq<Violation>) { forall i :: 0 <= i < |vs| ==> !Fatal(vs[i]) }

  function CheckBars(rows: seq<Bar>, requested: Option<int>): Contract {
    if rows == [] then Contract(false, [NonEmpty], [MonotonicCheck, HighGeLowCheck, NoGapsCheck])
    else
      var vs := Violations(rows, requested);
      Contract(NoFatal(vs), vs,
               (if requested.Some? && requested.value != 0 then [] else [CoverageCheck])
               + (if |rows| >= 5 then [] else [NoGapsCheck]))
  }

  // ------------------------------------------------------------------ what it means

  ghost predicate Forward(rows: seq<Bar>) {
    forall i, j :: 0 <= i < j < |rows| ==> rows[i].ts < rows[j].ts
  }

  // Every bar has finite prices and a positive close, none is inverted, and time goes
  // strictly forward over the whole series.
  ghost predicate Sound(rows: seq<Bar>) {
    && rows != []
    && (forall i :: 0 <= i < |rows| ==> Priced(rows[i]) && !Inverted(rows[i]))
    && Forward(rows)
  }

  lemma {:induction false} NoneUnpriced(rows: seq<Bar>)
    ensures Sorting.Sum(Unpriced(), rows) == 0 <==> forall i :: 0 <= i < |rows| ==> Priced(rows[i])
  {
    if |rows| != 0 {
      var init := rows[..|rows|-1];
      NoneUnpriced(init);
      CountsAreNat(init);
      assert forall i :: 0 <= i < |init| ==> init[i] == rows[i];
    }
  }

  lemma {:induction false} NoneInverted(rows: seq<Bar>)
    ensures Sorting.Sum(InvertedOne(), rows) == 0 <==> forall i :: 0 <= i < |rows| ==> !Inverted(rows[i])
  {
    if |rows| != 0 {
      var init := rows[..|rows|-1];
      NoneInverted(init);
      CountsAreNat(init);
      assert forall i :: 0 <= i < |init| ==> init[i] == rows[i];
    }
  }

  lemma ForwardSnoc(rows: seq<Bar>)
    requires |rows| >= 2
    ensures Forward(rows) <==> Forward(rows[..|rows|-1]) && rows[|rows|-2].ts < rows[|rows|-1].ts
  {
    var n := |rows| - 1;
    var init := rows[..n];
    assert forall i :: 0 <= i < n ==> init[i] == rows[i];
    if Forward(init) && rows[n-1].ts < rows[n].ts {
      forall i, j | 0 <= i < j < |rows| ensures rows[i].ts < rows[j].ts {
        if j == n && i < n - 1 { assert init[i].ts < init[n-1].ts; }
      }
    }
  }

  // Neighbours decide for every pair.
  lemma {:induction false} NeighboursDecide(rows: seq<Bar>)
    ensures Duplicates(rows) == 0 && Backwards(rows) == 0 <==> Forward(rows)
  {
    if |rows| >= 2 {
      hide Forward;
      NeighboursDecide(rows[..|rows|-1]);
      CountsAreNat(rows[..|rows|-1]);
      ForwardSnoc(rows);
    }
  }

  lemma FatalCounts(rows: seq<Bar>, requested: Option<int>)
    ensures NoFatal(Violations(rows, requested)) <==>
      Sorting.Sum(Unpriced(), rows) <= 0 && Sorting.Sum(InvertedOne(), rows) <= 0
      && Duplicates(rows) <= 0 && Backwards(rows) <= 0
  {
    hide Gapped, Short;
    var a := Listed(PricesFinite(AsNat(Sorting.Sum(Unpriced(), rows))), Sorting.Sum(Unpriced(), rows) > 0);
    var b := Listed(HighGeLow(AsNat(Sorting.Sum(InvertedOne(), rows))), Sorting.Sum(InvertedOne(), rows) > 0);
    var c := Listed(UniqueTimestamps(AsNat(Duplicates(rows))), Duplicates(rows) > 0);
    var d := Listed(Monotonic(AsNat(Backwards(rows))), Backwards(rows) > 0);
    var e := Listed(Coverage(|rows|, if requested.Some? then requested.value else 0), Short(rows, requested));
    var f := Listed(NoGaps, Gapped(rows));
    assert Violations(rows, requested) == a + b + c + d + e + f;
    NoFatalConcat(a + b + c + d + e, f);
    NoFatalConcat(a + b + c + d, e);
    NoFatalConcat(a + b + c, d);
    NoFatalConcat(a + b, c);
    NoFatalConcat(a, b);
    ListedFatal(PricesFinite(AsNat(Sorting.Sum(Unpriced(), rows))), Sorting.Sum(Unpriced(), rows) > 0);
    ListedFatal(HighGeLow(AsNat(Sorting.Sum(InvertedOne(), rows))), Sorting.Sum(InvertedOne(), rows) > 0);
    ListedFatal(UniqueTimestamps(AsNat(Duplicates(rows))), Duplicates(rows) > 0);
    ListedFatal(Monotonic(AsNat(Backwards(rows))), Backwards(rows) > 0);
  }

  lemma ListedFatal(v: Violation, found: bool)
    ensures NoFatal(Listed(v, found)) <==> !(found && Fatal(v))
  {
    if found { assert Listed(v, found)[0] == v; }
  }

  lemma NoFatalConcat(a: seq<Violation>, b: seq<Violation>)
    ensures NoFatal(a + b) <==> NoFatal(a) && NoFatal(b)
  {
    if NoFatal(a + b) {
      forall i | 0 <= i < |a| ensures !Fatal(a[i]) { assert (a + b)[i] == a[i]; }
      forall i | 0 <= i < |b| ensures !Fatal(b[i]) { assert (a + b)[|a| + i] == b[i]; }
    }
  }

  // The contract passes exactly the sound series, for any number of bars requested.
  lemma PassesIffSound(rows: seq<Bar>, requested: Option<int>)
    ensures CheckBars(rows, requested).passed <==> Sound(rows)
  {
    if rows != [] {
      FatalCounts(rows, requested);
      CountsAreNat(rows);
      NoneUnpriced(rows);
      NoneInverted(rows);
      NeighboursDecide(rows);
    }
  }

  // ----------------------------------------------------------------- the backfill

  function ByTime(): (Bar, Bar) -> bool { (a: Bar, b: Bar) => a.ts <= b.ts }

  lemma ByTimeIsOrder()
    ensures Sorting.TotalPreorder(ByTime())
  {
  }

  function Sorted(rows: seq<Bar>): seq<Bar> { Sorting.Sort(ByTime(), rows) }

  datatype Outcome = Empty | Rejected | Flagged | Clean

  function OutcomeOf(c: Contract, rows: seq<Bar>): Outcome {
    if rows == [] then Empty else if !c.passed then Rejected else if c.violations != [] then Flagged else Clean
  }

  function Timestamps(rows: seq<Bar>): set<int> { set i | 0 <= i < |rows| :: rows[i].ts }

  ghost predicate NonDecreasing(rows: seq<Bar>) {
    forall i, j :: 0 <= i < j < |rows| ==> rows[i].ts <= rows[j].ts
  }

  lemma TimestampsSnoc(rows: seq<Bar>)
    requires NonDecreasing(rows) && |rows| >= 1
    ensures var n := |rows| - 1;
      |Timestamps(rows)| == |Timestamps(rows[..n])| + (if n > 0 && rows[n].ts == rows[n-1].ts then 0 else 1)
  {
    var n := |rows| - 1;
    var init := rows[..n];
    assert forall i :: 0 <= i < n ==> init[i] == rows[i];
    assert Timestamps(rows) == Timestamps(init) + {rows[n].ts};
    if n > 0 && rows[n].ts == rows[n-1].ts {
      assert init[n-1].ts in Timestamps(init);
      assert Timestamps(rows) == Timestamps(init);
    } else {
      assert rows[n].ts !in Timestamps(init);
    }
  }

  // In a series that is in order nothing goes back, and the duplicates are the bars there
  // are beyond one per timestamp.
  lemma {:induction false} DuplicatesWhenSorted(rows: seq<Bar>)
    requires NonDecreasing(rows)
    ensures Backwards(rows) == 0 && Duplicates(rows) == |rows| - |Timestamps(rows)|
  {
    if |rows| == 0 {
      assert Timestamps(rows) == {};
    } else {
      var n := |rows| - 1;
      DuplicatesWhenSorted(rows[..n]);
      TimestampsSnoc(rows);
      if n > 0 {
        assert rows[n-1].ts <= rows[n].ts;
      } else {
        assert Duplicates(rows[..0]) == 0;
      }
    }
  }

  lemma SameTimestamps(rows: seq<Bar>, other: seq<Bar>)
    requires multiset(rows) == multiset(other)
    ensures Timestamps(rows) == Timestamps(other)
  {
    forall t | t in Timestamps(rows) ensures t in Timestamps(other) { Carried(rows, other, t); }
    forall t | t in Timestamps(other) ensures t in Timestamps(rows) { Carried(other, rows, t); }
  }

  lemma Carried(rows: seq<Bar>, other: seq<Bar>, t: int)
    requires multiset(rows) == multiset(other) && t in Timestamps(rows)
    ensures t in Timestamps(other)
  {
    var i :| 0 <= i < |rows| && rows[i].ts == t;
    assert rows[i] in multiset(other);
    var j :| 0 <= j < |other| && other[j] == rows[i];
  }

  // After the sort the out-of-order count is zero and the duplicate count is the number of
  // fetched rows less the number of distinct timestamps.
  lemma SortedCounts(rows: seq<Bar>)
    ensures Backwards(Sorted(rows)) == 0
    ensures Duplicates(Sorted(rows)) == |rows| - |Timestamps(rows)|
  {
    ByTimeIsOrder();
    Sorting.SortSorts(ByTime(), rows);
    var s := Sorted(rows);
    forall i, j | 0 <= i < j < |s| ensures s[i].ts <= s[j].ts { assert ByTime()(s[i], s[j]); }
    DuplicatesWhenSorted(s);
    SameTimestamps(rows, s);
  }

  // ------------------------------------------------------------------- permutations

  function Times(rows: seq<Bar>): (r: seq<int>)
    ensures |r| == |rows| && forall i :: 0 <= i < |r| ==> r[i] == rows[i].ts
  {
    seq(|rows|, i requires 0 <= i < |rows| => rows[i].ts)
  }

  // Two series with the same times at the same places have the same gaps.
  lemma {:induction false} SameTimesSameGaps(a: seq<Bar>, b: seq<Bar>)
    requires Times(a) == Times(b)
    ensures |a| == |b| && Spacings(a) == Spacings(b) && Duplicates(a) == Duplicates(b) && Backwards(a) == Backwards(b)
  {
    assert |a| == |Times(a)| == |Times(b)| == |b|;
    assert forall i :: 0 <= i < |a| ==> a[i].ts == Times(a)[i] == b[i].ts;
    if |a| >= 2 {
      var n := |a| - 1;
      assert Times(a[..n]) == Times(b[..n]);
      SameTimesSameGaps(a[..n], b[..n]);
    }
  }

  lemma {:induction false} TimesMultiset(a: seq<Bar>, b: seq<Bar>)
    requires multiset(a) == multiset(b)
    ensures multiset(Times(a)) == multiset(Times(b))
    decreases |a|
  {
    Sorting.SameLength(a, b);
    if |a| == 0 {
      assert Times(a) == Times(b);
    } else {
      var n := |a| - 1;
      Sorting.WithoutMultiset(a, n);
      var k := Sorting.FindIn(b, a[n]);
      TimesMultiset(Sorting.Without(a, n), Sorting.Without(b, k));
      assert Times(Sorting.Without(a, n)) == Sorting.Without(Times(a), n);
      assert Times(Sorting.Without(b, k)) == Sorting.Without(Times(b), k);
      Sorting.PutBack(Times(a), n, Times(b), k);
    }
  }

  function IntAtMost(): (int, int) -> bool { (a: int, b: int) => a <= b }

  lemma IntOrder(m: multiset<int>)
    ensures Sorting.TotalPreorder(IntAtMost()) && Sorting.Strict(IntAtMost(), m)
  {
  }

  lemma SortedTimes(rows: seq<Bar>, other: seq<Bar>)
    requires multiset(rows) == multiset(other)
    ensures Times(Sorted(rows)) == Times(Sorted(other))
  {
    ByTimeIsOrder();
    Sorting.SortSorts(ByTime(), rows);
    Sorting.SortSorts(ByTime(), other);
    var a, b := Sorted(rows), Sorted(other);
    TimesMultiset(a, b);
    IntOrder(multiset(Times(a)));
    TimesOrdered(a);
    TimesOrdered(b);
    Sorting.OrderedIsUnique(IntAtMost(), Times(a), Times(b));
  }

  lemma TimesOrdered(s: seq<Bar>)
    requires Sorting.Ordered(ByTime(), s)
    ensures Sorting.Ordered(IntAtMost(), Times(s))
  {
    forall i, j | 0 <= i < j < |s| ensures IntAtMost()(Times(s)[i], Times(s)[j]) { assert ByTime()(s[i], s[j]); }
  }

  // The verdict on a backfill does not depend on the order its rows were fetched in.
  lemma VerdictForgetsOrder(rows: seq<Bar>, other: seq<Bar>, requested: Option<int>)
    requires multiset(rows) == multiset(other)
    ensures CheckBars(Sorted(rows), requested) == CheckBars(Sorted(other), requested)
  {
    hide Sorting.Sort, Sorting.Sum, Duplicates, Backwards, Stats.Median, Largest, Spacings;
    ByTimeIsOrder();
    Sorting.SortSorts(ByTime(), rows);
    Sorting.SortSorts(ByTime(), other);
    SortedTimes(rows, other);
    SameTimesSameGaps(Sorted(rows), Sorted(other));
    Sorting.SumOfPermutation(Unpriced(), Sorted(rows), Sorted(other));
    Sorting.SumOfPermutation(InvertedOne(), Sorted(rows), Sorted(other));
  }

  // What a clean outcome means.
  lemma CleanIff(rows: seq<Bar>, requested: Option<int>)
    ensures OutcomeOf(CheckBars(rows, requested), rows) == Clean <==>
      Sound(rows) && !Short(rows, requested) && !Gapped(rows)
  {
    hide Gapped, Short;
    PassesIffSound(rows, requested);
    if rows != [] {
      FatalCounts(rows, requested);
      CountsAreNat(rows);
      var vs := Violations(rows, requested);
      assert vs == [] ==> NoFatal(vs);
    }
  }

  // ------------------------------------------------------------------------ the loop

  // One pass over the bars, each with the one before it.
  method CountFaults(rows: seq<Bar>) returns (nonPositive: int, inverted: int, duplicated: int, outOfOrder: int)
    ensures nonPositive == Sorting.Sum(Unpriced(), rows) && inverted == Sorting.Sum(InvertedOne(), rows)
    ensures duplicated == Duplicates(rows) && outOfOrder == Backwards(rows)
  {
    nonPositive, inverted, duplicated, outOfOrder := 0, 0, 0, 0;
    for i := 0 to |rows|
      invariant nonPositive == Sorting.Sum(Unpriced(), rows[..i])
      invariant inverted == Sorting.Sum(InvertedOne(), rows[..i])
      invariant duplicated == Duplicates(rows[..i]) && outOfOrder == Backwards(rows[..i])
    {
      assert rows[..i+1][..i] == rows[..i];
      var bar := rows[i];
      if !Priced(bar) {
        nonPositive := nonPositive + 1;
      }
      if Inverted(bar) {
        inverted := inverted + 1;
      }
      if i > 0 {
        if bar.ts == rows[i-1].ts {
          duplicated := duplicated + 1;
        } else if bar.ts < rows[i-1].ts {
          outOfOrder := outOfOrder + 1;
        }
      }
    }
    assert rows[..|rows|] == rows;
  }

  method CheckBarsRows(rows: seq<Bar>, requested: Option<int>) returns (c: Contract)
    ensures c == CheckBars(rows, requested)
    ensures c.passed <==> Sound(rows)
  {
    hide Sorting.Sum, Duplicates, Backwards, Gapped, Short, Sound, Listed, NoFatal;
    PassesIffSound(rows, requested);
    if rows == [] {
      return Contract(false, [NonEmpty], [MonotonicCheck, HighGeLowCheck, NoGapsCheck]);
    }
    var nonPositive, inverted, duplicated, outOfOrder := CountFaults(rows);
    var violations := Listed(PricesFinite(AsNat(nonPositive)), nonPositive > 0)
      + Listed(HighGeLow(AsNat(inverted)), inverted > 0)
      + Listed(UniqueTimestamps(AsNat(duplicated)), duplicated > 0)
      + Listed(Monotonic(AsNat(outOfOrder)), outOfOrder > 0)
      + Listed(Coverage(|rows|, if requested.Some? then requested.value else 0), Short(rows, requested))
      + Listed(NoGaps, Gapped(rows));
    c := Contract(NoFatal(violations), violations,
                  (if requested.Some? && requested.value != 0 then [] else [CoverageCheck])
                  + (if |rows| >= 5 then [] else [NoGapsCheck]));
  }

  datatype Backfilled = TooWide(expected: int) | Backfill(outcome: Outcome, rows: seq<Bar>, expected: int)

  // Python's int() of a quotient: towards zero.
  function Truncated(a: int, b: int): int
    requires b > 0
  {
    if a >= 0 then a / b else -((-a) / b)
  }

  // Fetched rows are put in order, checked against the number the range spans, and
  // classified; a range past the cap is refused before anything is fetched.
  method RunBackfill(fetched: seq<Bar>, fromMs: int, toMs: int, intervalMs: int, maxBars: int) returns (r: Backfilled)
    requires intervalMs > 0
    ensures r.TooWide? <==> Truncated(toMs - fromMs, intervalMs) + 1 > maxBars
    ensures r.Backfill? ==>
      && r.rows == Sorted(fetched) && r.expected == Truncated(toMs - fromMs, intervalMs) + 1
      && r.outcome == OutcomeOf(CheckBars(r.rows, Some(r.expected)), r.rows)
      && (r.outcome in {Flagged, Clean} <==> Sound(r.rows))
      && (r.outcome == Empty <==> fetched == [])
  {
    var expected := Truncated(toMs - fromMs, intervalMs) + 1;
    if expected > maxBars {
      return TooWide(expected);
    }
    var rows := Sorted(fetched);
    var contract := CheckBarsRows(rows, Some(expected));
    r := Backfill(OutcomeOf(contract, rows), rows, expected);
  }

  // -------------------------------------------------------------- what is reported

  predicate GoodPrices(b: Bar) {
    b.open.Finite? && b.high.Finite? && b.low.Finite? && b.close.Finite? && b.close.x > 0.0
  }

  predicate HighUnderLow(b: Bar) { b.high.Finite? && b.low.Finite? && b.high.x < b.low.x }

  // The bars of a series with each kind of fault.
  function BadPrices(rows: seq<Bar>): set<nat> { set i: nat | i < |rows| && !GoodPrices(rows[i]) }

  function HighBelowLow(rows: seq<Bar>): set<nat> { set i: nat | i < |rows| && HighUnderLow(rows[i]) }

  predicate Repeats(rows: seq<Bar>, i: nat)
    requires i < |rows|
  {
    i > 0 && rows[i].ts == rows[i-1].ts
  }

  predicate GoesBack(rows: seq<Bar>, i: nat)
    requires i < |rows|
  {
    i > 0 && rows[i].ts < rows[i-1].ts
  }

  function SameAsBefore(rows: seq<Bar>): set<nat> { set i: nat | i < |rows| && Repeats(rows, i) }

  function BeforeTheLast(rows: seq<Bar>): set<nat> { set i: nat | i < |rows| && GoesBack(rows, i) }

  lemma BadOfMore(init: seq<Bar>, b: Bar)
    ensures |BadPrices(init + [b])| == |BadPrices(init)| + if GoodPrices(b) then 0 else 1
  {
    hide GoodPrices;
    var n, rows := |init|, init + [b];
    assert rows[n] == b && forall i :: 0 <= i < n ==> rows[i] == init[i];
    assert n !in BadPrices(init);
    assert BadPrices(rows) == BadPrices(init) + (if GoodPrices(b) then {} else {n});
  }

  lemma HighOfMore(init: seq<Bar>, b: Bar)
    ensures |HighBelowLow(init + [b])| == |HighBelowLow(init)| + if HighUnderLow(b) then 1 else 0
  {
    hide HighUnderLow;
    var n, rows := |init|, init + [b];
    assert rows[n] == b && forall i :: 0 <= i < n ==> rows[i] == init[i];
    assert n !in HighBelowLow(init);
    assert HighBelowLow(rows) == HighBelowLow(init) + (if HighUnderLow(b) then {n} else {});
  }

  lemma SameFaults(b: Bar)
    ensures GoodPrices(b) == Priced(b) && HighUnderLow(b) == Inverted(b)
  {
  }

  lemma SamePairs(init: seq<Bar>, b: Bar, i: nat)
    requires i < |init|
    ensures Repeats(init + [b], i) == Repeats(init, i) && GoesBack(init + [b], i) == GoesBack(init, i)
  {
    var rows := init + [b];
    assert rows[i] == init[i] && (i > 0 ==> rows[i-1] == init[i-1]);
  }

  lemma SameOfMore(init: seq<Bar>, b: Bar)
    ensures var n, rows := |init|, init + [b];
      |SameAsBefore(rows)| == |SameAsBefore(init)| + if Repeats(rows, n) then 1 else 0
  {
    var n, rows := |init|, init + [b];
    forall i: nat | i < n ensures Repeats(rows, i) == Repeats(init, i) { SamePairs(init, b, i); }
    hide Repeats;
    assert n !in SameAsBefore(init);
    assert SameAsBefore(rows) == SameAsBefore(init) + (if Repeats(rows, n) then {n} else {});
  }

  lemma BackOfMore(init: seq<Bar>, b: Bar)
    ensures var n, rows := |init|, init + [b];
      |BeforeTheLast(rows)| == |BeforeTheLast(init)| + if GoesBack(rows, n) then 1 else 0
  {
    var n, rows := |init|, init + [b];
    forall i: nat | i < n ensures GoesBack(rows, i) == GoesBack(init, i) { SamePairs(init, b, i); }
    hide GoesBack;
    assert n !in BeforeTheLast(init);
    assert BeforeTheLast(rows) == BeforeTheLast(init) + (if GoesBack(rows, n) then {n} else {});
  }

  // The four counts are the numbers of bars with the fault.
  lemma {:induction false} CountsAreBars(rows: seq<Bar>)
    ensures Sorting.Sum(Unpriced(), rows) == |BadPrices(rows)|
    ensures Sorting.Sum(InvertedOne(), rows) == |HighBelowLow(rows)|
    ensures Duplicates(rows) == |SameAsBefore(rows)| && Backwards(rows) == |BeforeTheLast(rows)|
  {
    hide BadPrices, HighBelowLow, SameAsBefore, BeforeTheLast, Priced, Inverted, GoodPrices, HighUnderLow;
    if |rows| == 0 {
      NoFaults(rows);
    } else {
      var n := |rows| - 1;
      CountsAreBars(rows[..n]);
      BadOfMore(rows[..n], rows[n]);
      HighOfMore(rows[..n], rows[n]);
      SameFaults(rows[n]);
      SameOfMore(rows[..n], rows[n]);
      BackOfMore(rows[..n], rows[n]);
      assert rows == rows[..n] + [rows[n]];
    }
  }

  lemma NoFaults(rows: seq<Bar>)
    requires |rows| == 0
    ensures BadPrices(rows) == {} && HighBelowLow(rows) == {} && SameAsBefore(rows) == {} && BeforeTheLast(rows) == {}
  {
  }

  lemma {:induction false} SpacingsAre(rows: seq<Bar>, i: nat)
    requires i + 1 < |rows|
    ensures Spacings(rows)[i] == (rows[i+1].ts - rows[i].ts) as real
  {
    if i + 2 < |rows| { SpacingsAre(rows[..|rows|-1], i); }
  }

  // The largest step is more than four and a half times the median one.
  ghost predicate HasGap(rows: seq<Bar>) {
    && |rows| >= 5
    && var median := Stats.Median(Spacings(rows));
       median > 0.0 && exists i :: 0 <= i < |rows| - 1 && (rows[i+1].ts - rows[i].ts) as real > 4.5 * median
  }

  lemma GappedIff(rows: seq<Bar>)
    ensures Gapped(rows) <==> HasGap(rows)
  {
    hide Stats.Median;
    if |rows| >= 5 {
      var s := Spacings(rows);
      forall i | 0 <= i < |s| ensures s[i] == (rows[i+1].ts - rows[i].ts) as real { SpacingsAre(rows, i); }
      var k :| 0 <= k < |s| && s[k] == Largest(s);
      assert s[k] == (rows[k+1].ts - rows[k].ts) as real;
      if i :| 0 <= i < |rows| - 1 && (rows[i+1].ts - rows[i].ts) as real > 4.5 * Stats.Median(s) {
        assert s[i] <= Largest(s);
      }
    }
  }

  // A report names each kind of fault that the series has, with the number of bars that have
  // it, and no other; it says what it could not look at.
  lemma ReportsExactly(rows: seq<Bar>, requested: Option<int>, v: Violation)
    ensures rows == [] ==> (v in CheckBars(rows, requested).violations <==> v == NonEmpty)
    ensures var skipped := CheckBars(rows, requested).notEvaluated;
      && (MonotonicCheck in skipped <==> rows == []) && (HighGeLowCheck in skipped <==> rows == [])
      && (NoGapsCheck in skipped <==> |rows| < 5)
      && (CoverageCheck in skipped <==> rows != [] && (requested.None? || requested.value == 0))
    ensures rows != [] ==>
      (v in CheckBars(rows, requested).violations <==>
            match v
            case NonEmpty => false
            case PricesFinite(n) => n == |BadPrices(rows)| > 0
            case HighGeLow(n) => n == |HighBelowLow(rows)| > 0
            case UniqueTimestamps(n) => n == |SameAsBefore(rows)| > 0
            case Monotonic(n) => n == |BeforeTheLast(rows)| > 0
            case Coverage(got, r) =>
              requested == Some(r) && r != 0 && got == |rows| && 2 * got < r
            case NoGaps => HasGap(rows))
  {
    hide Sorting.Sum, Duplicates, Backwards, Gapped, HasGap, BadPrices, HighBelowLow, SameAsBefore, BeforeTheLast;
    hide Listed, NoFatal;
    CountsAreBars(rows);
    GappedIff(rows);
    if rows == [] { return; }
    var a, b, c, d := |BadPrices(rows)|, |HighBelowLow(rows)|, |SameAsBefore(rows)|, |BeforeTheLast(rows)|;
    var asked := if requested.Some? then requested.value else 0;
    ListedIn(v, PricesFinite(a), a > 0);
    ListedIn(v, HighGeLow(b), b > 0);
    ListedIn(v, UniqueTimestamps(c), c > 0);
    ListedIn(v, Monotonic(d), d > 0);
    ListedIn(v, Coverage(|rows|, asked), Short(rows, requested));
    ListedIn(v, NoGaps, Gapped(rows));
    InOneOfSix(v, Listed(PricesFinite(a), a > 0), Listed(HighGeLow(b), b > 0), Listed(UniqueTimestamps(c), c > 0),
               Listed(Monotonic(d), d > 0), Listed(Coverage(|rows|, asked), Short(rows, requested)),
               Listed(NoGaps, Gapped(rows)));
  }

  // Where each kind comes in a report.
  function Place(v: Violation): nat {
    match v
    case NonEmpty => 0
    case PricesFinite(_) => 1
    case HighGeLow(_) => 2
    case UniqueTimestamps(_) => 3
    case Monotonic(_) => 4
    case Coverage(_, _) => 5
    case NoGaps => 6
  }

  predicate InPlace(vs: seq<Violation>) {
    forall i, j :: 0 <= i < j < |vs| ==> Place(vs[i]) < Place(vs[j])
  }

  predicate AllBelow(vs: seq<Violation>, n: nat) {
    forall i :: 0 <= i < |vs| ==> Place(vs[i]) < n
  }

  lemma OneMore(vs: seq<Violation>, v: Violation, found: bool)
    requires InPlace(vs) && AllBelow(vs, Place(v))
    ensures InPlace(vs + Listed(v, found)) && AllBelow(vs + Listed(v, found), Place(v) + 1)
  {
  }

  // The kinds come in their order, each at most once.
  lemma ReportedInOrder(rows: seq<Bar>, requested: Option<int>)
    ensures InPlace(CheckBars(rows, requested).violations)
  {
    hide InPlace, AllBelow, Sorting.Sum, Duplicates, Backwards, Gapped, Listed, NoFatal;
    var a, b := Sorting.Sum(Unpriced(), rows), Sorting.Sum(InvertedOne(), rows);
    var c, d := Duplicates(rows), Backwards(rows);
    var asked := if requested.Some? then requested.value else 0;
    var vs := Listed(PricesFinite(AsNat(a)), a > 0);
    FirstInPlace(NonEmpty, true);
    FirstInPlace(PricesFinite(AsNat(a)), a > 0);
    OneMore(vs, HighGeLow(AsNat(b)), b > 0);
    vs := vs + Listed(HighGeLow(AsNat(b)), b > 0);
    OneMore(vs, UniqueTimestamps(AsNat(c)), c > 0);
    vs := vs + Listed(UniqueTimestamps(AsNat(c)), c > 0);
    OneMore(vs, Monotonic(AsNat(d)), d > 0);
    vs := vs + Listed(Monotonic(AsNat(d)), d > 0);
    OneMore(vs, Coverage(|rows|, asked), Short(rows, requested));
    vs := vs + Listed(Coverage(|rows|, asked), Short(rows, requested));
    OneMore(vs, NoGaps, Gapped(rows));
  }

  lemma FirstInPlace(v: Violation, found: bool)
    ensures InPlace(Listed(v, found)) && AllBelow(Listed(v, found), Place(v) + 1) && Listed(v, true) == [v]
  {
  }

  lemma ListedIn(v: Violation, w: Violation, found: bool)
    ensures v in Listed(w, found) <==> found && v == w
  {
  }

  lemma InOneOfSix(v: Violation, a: seq<Violation>, b: seq<Violation>, c: seq<Violation>, d: seq<Violation>,
                   e: seq<Violation>, f: seq<Violation>)
    ensures v in a + b + c + d + e + f <==> v in a || v in b || v in c || v in d || v in e || v in f
  {
  }

  // Passing, written out.
  lemma PassesIff(rows: seq<Bar>, requested: Option<int>)
    ensures CheckBars(rows, requested).passed <==>
      rows != []
      && (forall i :: 0 <= i < |rows| ==>
            rows[i].open.Finite? && rows[i].high.Finite? && rows[i].low.Finite? && rows[i].close.Finite?
            && rows[i].close.x > 0.0 && rows[i].low.x <= rows[i].high.x)
      && (forall i, j :: 0 <= i < j < |rows| ==> rows[i].ts < rows[j].ts)
  {
    hide CheckBars;
    PassesIffSound(rows, requested);
  }

  // The four outcomes: nothing came, the series is not sound, it is but something is to be
  // said, and none of these.
  lemma OutcomesIff(rows: seq<Bar>, requested: Option<int>)
    ensures var outcome := OutcomeOf(CheckBars(rows, requested), rows);
      && (outcome == Empty <==> rows == [])
      && (outcome == Rejected <==> rows != [] && !Sound(rows))
      && (outcome == Flagged <==> Sound(rows) && (Short(rows, requested) || HasGap(rows)))
      && (outcome == Clean <==> Sound(rows) && !Short(rows, requested) && !HasGap(rows))
      && (Short(rows, requested) <==> requested.Some? && requested.value != 0 && 2 * |rows| < requested.value)
  {
    hide CheckBars, Gapped, HasGap;
    PassesIffSound(rows, requested);
    CleanIff(rows, requested);
    GappedIff(rows);
  }
}
