/**
 What can be said of the rows that come out of the pipeline: one per key, and measures
 that obey the price rule where the pipeline supplied them.
 */
module CleaningOutcome {
  import opened Cleaning
  import opened CleaningReconciles
  import Sorting
  import Stats

  // ------------------------------------------------------------------ one row per key

  ghost predicate UniqueKeys(d: Frame) {
    forall i, j :: 0 <= i < j < |d| ==> !SameKey(d[i], d[j])
  }

  ghost predicate NoTwins(d: Frame) {
    forall i, j :: 0 <= i < j < |d| ==> !SameRow(d[i], d[j])
  }

  lemma DropSnoc(d: Frame, m: Mask)
    requires |m| == |d| && |d| > 0
    ensures var n := |d| - 1;
      Drop(d, m) == if m[n] then Drop(d[..n], m[..n]) else Drop(d[..n], m[..n]) + [d[n]]
  {
  }

  // What is kept of a frame of which `m` marks every row with an equal one before it.
  lemma {:induction false} DropRepeats(d: Frame, m: Mask)
    requires |m| == |d|
    requires forall i, j :: 0 <= j < i < |d| && SameRow(d[j], d[i]) ==> m[i]
    ensures NoTwins(Drop(d, m))
    ensures forall r :: r in Drop(d, m) ==> r in d
  {
    hide SameRow;
    if |d| != 0 {
      var n := |d| - 1;
      DropRepeats(d[..n], m[..n]);
      DropSnoc(d, m);
      var e := Drop(d[..n], m[..n]);
      forall i | 0 <= i < |e| && !m[n] ensures !SameRow(e[i], d[n]) {
        assert e[i] in d[..n];
        var k :| 0 <= k < n && d[k] == e[i];
      }
      assert forall r :: r in d[..n] ==> r in d;
    }
  }

  lemma {:induction false} DropNotFirst(d: Frame, m: Mask)
    requires |m| == |d|
    requires forall i, j :: 0 <= j < i < |d| && SameKey(d[j], d[i]) ==> m[i]
    ensures UniqueKeys(Drop(d, m))
    ensures forall r :: r in Drop(d, m) ==> r in d
  {
    hide SameKey;
    if |d| != 0 {
      var n := |d| - 1;
      DropNotFirst(d[..n], m[..n]);
      DropSnoc(d, m);
      var e := Drop(d[..n], m[..n]);
      forall i | 0 <= i < |e| && !m[n] ensures !SameKey(e[i], d[n]) {
        assert e[i] in d[..n];
        var k :| 0 <= k < n && d[k] == e[i];
      }
      assert forall r :: r in d[..n] ==> r in d;
    }
  }

  lemma {:induction false} DroppedFrom(d: Frame, m: Mask, i: nat) returns (k: nat)
    requires |m| == |d| && i < |Drop(d, m)|
    ensures k < |d| && !m[k] && Drop(d, m)[i] == d[k]
  {
    var n := |d| - 1;
    DropSnoc(d, m);
    if i < |Drop(d[..n], m[..n])| { k := DroppedFrom(d[..n], m[..n], i); } else { k := n; }
  }

  // What is kept of a frame of which `m` marks every row with its key after it.
  lemma {:induction false} DropNotLast(d: Frame, m: Mask)
    requires |m| == |d|
    requires forall i, j :: 0 <= i < j < |d| && SameKey(d[j], d[i]) ==> m[i]
    ensures UniqueKeys(Drop(d, m))
  {
    hide SameKey;
    if |d| != 0 {
      var n := |d| - 1;
      DropNotLast(d[..n], m[..n]);
      DropSnoc(d, m);
      var e := Drop(d[..n], m[..n]);
      forall i | 0 <= i < |e| ensures !SameKey(e[i], d[n]) {
        var k := DroppedFrom(d[..n], m[..n], i);
        KeySymmetric(d[k], d[n]);
        assert !m[k];
      }
    }
  }

  lemma KeySymmetric(a: Row, b: Row)
    ensures SameKey(a, b) <==> SameKey(b, a)
    ensures SameRow(a, b) ==> SameKey(a, b)
  {
  }

  // Without twins, any two rows of one key are in conflict.
  lemma TwinlessConflicts(d: Frame)
    requires NoTwins(d) && !Any(Conflicts(d))
    ensures UniqueKeys(d)
  {
    forall i, j | 0 <= i < j < |d| ensures !SameKey(d[i], d[j]) {
      forall k | 0 <= k < |d| && k != j ensures !SameRow(d[k], d[j]) { TwinOrder(d, k, j); }
      assert !Conflicts(d)[j] by { assert Conflicts(d)[j] ==> Any(Conflicts(d)); }
    }
  }

  lemma TwinOrder(d: Frame, k: nat, j: nat)
    requires NoTwins(d) && k < |d| && j < |d| && k != j
    ensures !SameRow(d[k], d[j])
  {
    if j < k { assert !SameRow(d[j], d[k]); }
  }

  lemma SettledKeys(d: Frame, sw: Switches)
    requires sw.dedupe && Restatements(Dedupe(d, sw).frame, sw).Ok?
    ensures UniqueKeys(Restatements(Dedupe(d, sw).frame, sw).value.frame)
  {
    hide Drop;
    DropRepeats(d, Repeats(d));
    var e := Dedupe(d, sw).frame;
    if Any(Conflicts(e)) {
      DropNotFirst(e, NotFirst(e));
      DropNotLast(e, NotLast(e));
    } else {
      TwinlessConflicts(e);
    }
  }

  // Keys stay unique through stages that only change measures.
  lemma LineageKeys(d: Frame, e: Frame)
    requires UniqueKeys(d) && Lineage(d, e)
    ensures UniqueKeys(e)
  {
    forall i, j | 0 <= i < j < |e| ensures !SameKey(e[i], e[j]) {
      assert ComesFrom(d, e[i]) && ComesFrom(d, e[j]);
      var a :| 0 <= a < |d| && SameOrigin(d[a], e[i]);
      var b :| 0 <= b < |d| && SameOrigin(d[b], e[j]);
      assert e[i].source != e[j].source;
      if a < b { assert !SameKey(d[a], d[b]); } else { assert !SameKey(d[b], d[a]); }
    }
  }

  lemma SortedKeys(d: Frame)
    requires UniqueKeys(d)
    ensures UniqueKeys(Sorting.Sort(ByDate(), d))
  {
    ByDateIsOrder();
    Sorting.SortSorts(ByDate(), d);
    PermutedKeys(d, Sorting.Sort(ByDate(), d));
  }

  lemma PermutedKeys(d: Frame, e: Frame)
    requires UniqueKeys(d) && multiset(d) == multiset(e)
    ensures UniqueKeys(e)
  {
    forall i, j | 0 <= i < j < |e| ensures !SameKey(e[i], e[j]) {
      var a, b := TwoOf(d, e, i, j);
      if a < b { assert !SameKey(d[a], d[b]); } else { assert !SameKey(d[b], d[a]); KeySymmetric(d[a], d[b]); }
    }
  }

  // Two places of a list come from two places of its permutation.
  lemma TwoOf(d: Frame, e: Frame, i: nat, j: nat) returns (a: nat, b: nat)
    requires multiset(d) == multiset(e) && i < j < |e|
    ensures a < |d| && b < |d| && a != b && d[a] == e[i] && d[b] == e[j]
  {
    assert e[i] in multiset(e);
    a := Sorting.FindIn(d, e[i]);
    Sorting.WithoutMultiset(e, i);
    assert Sorting.Without(e, i)[j-1] == e[j];
    var k := Sorting.FindIn(Sorting.Without(d, a), e[j]);
    b := if k < a then k else k + 1;
  }

  // With the duplicates dropped, no two rows that come out share a key.
  lemma OneRowPerKey(src: seq<RawRow>, sw: Switches)
    requires sw.dedupe && Clean(src, sw).Ok?
    ensures UniqueKeys(Clean(src, sw).value.frame)
  {
    hide Measured, Negative, Anomaly, Unpriced, Clean, Lineage, Balanced, UniqueKeys, Missing;
    CleanParts(src, sw);
    var u, m := Unpriced(src, sw).value, Measured(src, sw).value;
    var n, b := Negative(m.frame, sw).value, Billed(src, sw);
    UnpricedKeys(src, sw);
    MeasuredFrom(src, sw);
    LineageAscends(u.frame, m.frame);
    NegativeLineage(m.frame, sw);
    LineageAscends(m.frame, n.frame);
    AnomalyOk(n.frame, u.frame, sw);
    LineageKeys(u.frame, m.frame);
    LineageKeys(m.frame, n.frame);
    LineageKeys(n.frame, b.frame);
    SortedKeys(b.frame);
  }

  lemma UnpricedKeys(src: seq<RawRow>, sw: Switches)
    requires sw.dedupe && Unpriced(src, sw).Ok?
    ensures UniqueKeys(Unpriced(src, sw).value.frame)
  {
    hide Dedupe, Restatements;
    SettledKeys(ParsedAll(src, sw.dayFirst).value, sw);
  }

  lemma MeasuredFrom(src: seq<RawRow>, sw: Switches)
    requires Measured(src, sw).Ok? && Unpriced(src, sw).Ok?
    ensures Lineage(Unpriced(src, sw).value.frame, Measured(src, sw).value.frame)
  {
    hide Unpriced, Missing;
    UnpricedOk(src, sw);
    StageAscending(src, sw.dayFirst, Unpriced(src, sw).value);
    MissingOk(Unpriced(src, sw).value.frame, sw);
  }

  // --------------------------------------------------------------------- the price rule

  lemma ToTheCent(price: real)
    ensures price - 0.005 <= Stats.Round(price * 100.0) as real / 100.0 <= price + 0.005
  {
    Stats.RoundIsNear(price * 100.0);
  }

  // Row `i` of a frame whose blanks were filled in.
  lemma FilledRow(d: Frame, sw: Switches, i: nat)
    requires Missing(d, sw).Ok? && sw.missing == "impute" && i < |d|
    ensures var e, rate := Missing(d, sw).value.frame, RateFor(d, sw.rateBy, KeyOf(d[i], sw.rateBy));
      && |e| == |d|
      && (d[i].cost.None? && d[i].tokens.Some? ==> e[i] == WithCost(d[i], rate))
      && (d[i].tokens.None? && d[i].cost.Some? ==> TokensFinite(d[i], rate) && e[i] == WithTokens(d[i], rate))
  {
    hide RateFor, Stats.Round, Pick, Sums;
    var mc, mt := NoCost(d), NoTokens(d);
    var e := Costed(d, d, sw.rateBy, mc);
    assert AllFinite(e, d, sw.rateBy, mt);
    var f := Tokened(e, d, sw.rateBy, mt);
    assert Missing(d, sw).value.frame == f;
    assert mc[i] == d[i].cost.None? && mt[i] == d[i].tokens.None?;
    if mc[i] && !mt[i] {
      assert f[i] == e[i] == WithCost(d[i], RateFor(d, sw.rateBy, KeyOf(d[i], sw.rateBy)));
    } else if mt[i] && !mc[i] {
      assert e[i] == d[i] && TokensFinite(e[i], RateFor(d, sw.rateBy, KeyOf(e[i], sw.rateBy)));
    }
  }

  // A cost that was filled in is the price of the tokens, to the cent.
  lemma FilledCostIsThePrice(d: Frame, sw: Switches, i: nat)
    requires Missing(d, sw).Ok? && sw.missing == "impute" && i < |d| && d[i].cost.None? && d[i].tokens.Some?
    requires RateFor(d, sw.rateBy, KeyOf(d[i], sw.rateBy)).Some?
    ensures var e := Missing(d, sw).value.frame;
      var price := Price(d[i].tokens.value, RateFor(d, sw.rateBy, KeyOf(d[i], sw.rateBy)).value);
      |e| == |d| && e[i].cost.Some? && e[i].tokens == d[i].tokens
      && price - 0.005 <= e[i].cost.value as real / 100.0 <= price + 0.005
  {
    hide RateFor, Missing, Stats.Round;
    FilledRow(d, sw, i);
    var rate := RateFor(d, sw.rateBy, KeyOf(d[i], sw.rateBy));
    ToTheCent(Price(d[i].tokens.value, rate.value));
  }

  // Tokens that were filled in are what the cost buys, to the token.
  lemma FilledTokensAreBought(d: Frame, sw: Switches, i: nat)
    requires Missing(d, sw).Ok? && sw.missing == "impute" && i < |d| && d[i].tokens.None? && d[i].cost.Some?
    requires RateFor(d, sw.rateBy, KeyOf(d[i], sw.rateBy)).Some?
    ensures RateFor(d, sw.rateBy, KeyOf(d[i], sw.rateBy)).value != 0.0
    ensures var e := Missing(d, sw).value.frame;
      var bought := Bought(d[i].cost.value, RateFor(d, sw.rateBy, KeyOf(d[i], sw.rateBy)).value);
      |e| == |d| && e[i].tokens.Some? && e[i].cost == d[i].cost
      && bought - 0.5 <= e[i].tokens.value as real <= bought + 0.5
  {
    hide RateFor, Missing, Stats.Round;
    FilledRow(d, sw, i);
    Stats.RoundIsNear(Bought(d[i].cost.value, RateFor(d, sw.rateBy, KeyOf(d[i], sw.rateBy)).value));
  }

  // A cost that was restated is the price of the tokens, to the cent.
  lemma RestatedIsThePrice(d: Frame, priced: Frame, sw: Switches, i: nat)
    requires sw.anomaly == "restate" && i < |d|
    requires Anomalous(d[i], RateFor(priced, sw.rateBy, KeyOf(d[i], sw.rateBy)), sw.factor)
    ensures var e := Anomaly(d, priced, sw).frame;
      var price := Price(d[i].tokens.value, RateFor(priced, sw.rateBy, KeyOf(d[i], sw.rateBy)).value);
      |e| == |d| && e[i].cost.Some? && price - 0.005 <= e[i].cost.value as real / 100.0 <= price + 0.005
  {
    hide Stats.Round, RateFor;
    var m, e := Anomalies(d, priced, sw), Restated(d, priced, sw.rateBy, Anomalies(d, priced, sw));
    assert m[i];
    assert Anomaly(d, priced, sw).frame == e;
    ToTheCent(Price(d[i].tokens.value, RateFor(priced, sw.rateBy, KeyOf(d[i], sw.rateBy)).value));
  }
}
