/**
 The register closes: raw totals and logged changes give the clean totals, rows in and
 rows logged as dropped give rows out, and every row out is one row in.
 */
module CleaningReconciles {
  import opened Cleaning
  import Sorting
  import Stats

  // ------------------------------------------------------------------ one stage

  ghost predicate Balanced(d: Frame, s: Stage) {
    && Sums(s.frame) == Plus(Sums(d), TotalDelta(s.log))
    && |s.frame| == |d| - TotalDropped(s.log)
  }

  predicate SameOrigin(a: Row, b: Row) {
    a.source == b.source && a.date == b.date && a.team == b.team && a.service == b.service && a.model == b.model
  }

  ghost predicate Ascending(d: Frame) {
    forall i, j :: 0 <= i < j < |d| ==> d[i].source < d[j].source
  }

  ghost predicate ComesFrom(d: Frame, r: Row) {
    exists i :: 0 <= i < |d| && SameOrigin(d[i], r)
  }

  // Rows of `d`, in their order, with nothing but measures changed.
  ghost predicate Lineage(d: Frame, e: Frame) {
    Ascending(e) && forall k :: 0 <= k < |e| ==> ComesFrom(d, e[k])
  }

  lemma LineageSelf(d: Frame)
    requires Ascending(d)
    ensures Lineage(d, d)
  {
  }

  lemma LineageOn(d: Frame, e: Frame, f: Frame)
    requires Lineage(d, e) && Lineage(e, f)
    ensures Lineage(d, f)
  {
    forall k | 0 <= k < |f| ensures ComesFrom(d, f[k]) {
      assert ComesFrom(e, f[k]);
      var j :| 0 <= j < |e| && SameOrigin(e[j], f[k]);
      assert ComesFrom(d, e[j]);
      var i :| 0 <= i < |d| && SameOrigin(d[i], e[j]);
      assert SameOrigin(d[i], f[k]);
    }
  }

  lemma PlusAssociates(a: Totals, b: Totals, c: Totals)
    ensures Plus(Plus(a, b), c) == Plus(a, Plus(b, c)) && Plus(a, ZERO) == a
  {
  }

  lemma {:induction false} DeltaConcat(a: seq<Entry>, b: seq<Entry>)
    ensures TotalDelta(a + b) == Plus(TotalDelta(a), TotalDelta(b))
  {
    hide Plus;
    if |b| == 0 {
      assert a + b == a;
      PlusAssociates(TotalDelta(a), ZERO, ZERO);
    } else {
      assert (a + b)[..|a + b| - 1] == a + b[..|b|-1];
      DeltaConcat(a, b[..|b|-1]);
      PlusAssociates(TotalDelta(a), TotalDelta(b[..|b|-1]), b[|b|-1].delta);
    }
  }

  lemma {:induction false} DroppedConcat(a: seq<Entry>, b: seq<Entry>)
    ensures TotalDropped(a + b) == TotalDropped(a) + TotalDropped(b)
  {
    if |b| == 0 {
      assert a + b == a;
    } else {
      assert (a + b)[..|a + b| - 1] == a + b[..|b|-1];
      DroppedConcat(a, b[..|b|-1]);
    }
  }

  lemma OneEntry(e: Entry)
    ensures TotalDelta([e]) == e.delta && TotalDropped([e]) == e.dropped
  {
    assert [e][..0] == [];
  }

  lemma TwoEntries(e: Entry, f: Entry)
    ensures TotalDelta([e, f]) == Plus(e.delta, f.delta) && TotalDropped([e, f]) == e.dropped + f.dropped
  {
    hide TotalDelta, TotalDropped, Plus;
    assert [e, f] == [e] + [f];
    DeltaConcat([e], [f]);
    DroppedConcat([e], [f]);
    OneEntry(e);
    OneEntry(f);
  }

  lemma BalancedOn(d: Frame, s: Stage, t: Stage)
    requires Balanced(d, s) && Balanced(s.frame, t)
    ensures Balanced(d, Stage(t.frame, s.log + t.log))
  {
    hide TotalDelta, TotalDropped, Sums, Plus;
    PlusAssociates(Sums(d), TotalDelta(s.log), TotalDelta(t.log));
    DeltaConcat(s.log, t.log);
    DroppedConcat(s.log, t.log);
  }

  lemma {:induction false} DropAndPick(f: Row -> int, d: Frame, m: Mask)
    requires |m| == |d|
    ensures Sorting.Sum(f, d) == Sorting.Sum(f, Drop(d, m)) + Sorting.Sum(f, Pick(d, m))
  {
    if |d| != 0 {
      var n := |d| - 1;
      DropAndPick(f, d[..n], m[..n]);
      SumSnoc(f, Drop(d[..n], m[..n]), d[n]);
      SumSnoc(f, Pick(d[..n], m[..n]), d[n]);
      SplitSnoc(d, m);
    }
  }

  lemma SplitSnoc(d: Frame, m: Mask)
    requires |m| == |d| != 0
    ensures var n := |d| - 1;
      && Drop(d, m) == (if m[n] then Drop(d[..n], m[..n]) else Drop(d[..n], m[..n]) + [d[n]])
      && Pick(d, m) == (if m[n] then Pick(d[..n], m[..n]) + [d[n]] else Pick(d[..n], m[..n]))
  {
  }

  lemma PickSum(f: Row -> int, d: Frame, m: Mask)
    requires |m| == |d| != 0
    ensures var n := |d| - 1;
      Sorting.Sum(f, Pick(d, m)) == Sorting.Sum(f, Pick(d[..n], m[..n])) + (if m[n] then f(d[n]) else 0)
  {
    var n := |d| - 1;
    SumSnoc(f, Pick(d[..n], m[..n]), d[n]);
    SplitSnoc(d, m);
  }

  lemma {:induction false} DropAndPickCount(d: Frame, m: Mask)
    requires |m| == |d|
    ensures |d| == |Drop(d, m)| + |Pick(d, m)|
  {
    if |d| != 0 { DropAndPickCount(d[..|d|-1], m[..|d|-1]); }
  }

  lemma SumSnoc(f: Row -> int, d: Frame, r: Row)
    ensures Sorting.Sum(f, d + [r]) == Sorting.Sum(f, d) + f(r)
  {
    assert (d + [r])[..|d|] == d;
  }

  lemma {:induction false} DropLineage(d: Frame, m: Mask)
    requires |m| == |d| && Ascending(d)
    ensures Lineage(d, Drop(d, m))
    ensures forall r :: r in Drop(d, m) ==> r in d
  {
    if |d| != 0 {
      var init, r := d[..|d|-1], d[|d|-1];
      DropLineage(init, m[..|d|-1]);
      var e := Drop(init, m[..|d|-1]);
      forall k | 0 <= k < |e| ensures e[k] in d && ComesFrom(d, e[k]) && e[k].source < r.source {
        assert e[k] in init;
        var i :| 0 <= i < |init| && init[i] == e[k];
        assert d[i] == e[k];
      }
      assert d[|d|-1] == r;
    }
  }

  lemma DroppedOk(d: Frame, m: Mask)
    requires |m| == |d| && Ascending(d)
    ensures Balanced(d, Dropped(d, m)) && Lineage(d, Dropped(d, m).frame)
  {
    DropAndPick(Requests(), d, m);
    DropAndPick(Tokens(), d, m);
    DropAndPick(Cost(), d, m);
    DropAndPickCount(d, m);
    DropLineage(d, m);
    OneEntry(Entry(|Pick(d, m)|, Minus(ZERO, Sums(Pick(d, m))), |Pick(d, m)|));
  }

  // `e` is `d` with the marked rows rewritten.
  ghost predicate Rewrites(d: Frame, e: Frame, m: Mask) {
    && |d| == |e| == |m|
    && forall i :: 0 <= i < |d| ==> SameOrigin(d[i], e[i]) && (!m[i] ==> e[i] == d[i])
  }

  lemma RewriteLineage(d: Frame, e: Frame, m: Mask)
    requires Rewrites(d, e, m) && Ascending(d)
    ensures Lineage(d, e)
  {
    forall k | 0 <= k < |e| ensures ComesFrom(d, e[k]) { assert SameOrigin(d[k], e[k]); }
    forall i, j | 0 <= i < j < |e| ensures e[i].source < e[j].source {
      assert SameOrigin(d[i], e[i]) && SameOrigin(d[j], e[j]);
    }
  }

  lemma {:induction false} RewriteSum(f: Row -> int, d: Frame, e: Frame, m: Mask)
    requires |d| == |e| == |m| && forall i :: 0 <= i < |d| && !m[i] ==> f(e[i]) == f(d[i])
    ensures Sorting.Sum(f, e) - Sorting.Sum(f, d) == Sorting.Sum(f, Pick(e, m)) - Sorting.Sum(f, Pick(d, m))
  {
    hide Pick;
    if |d| != 0 {
      var n := |d| - 1;
      RewriteSum(f, d[..n], e[..n], m[..n]);
      PickSum(f, d, m);
      PickSum(f, e, m);
    }
  }

  lemma {:induction false} SameSum(f: Row -> int, d: Frame, e: Frame)
    requires |d| == |e| && forall i :: 0 <= i < |d| ==> f(e[i]) == f(d[i])
    ensures Sorting.Sum(f, e) == Sorting.Sum(f, d)
  {
    if |d| != 0 {
      var n := |d| - 1;
      SameSum(f, d[..n], e[..n]);
    }
  }

  lemma {:induction false} PickedZero(f: Row -> int, d: Frame, m: Mask)
    requires |m| == |d| && forall i :: 0 <= i < |d| && m[i] ==> f(d[i]) == 0
    ensures Sorting.Sum(f, Pick(d, m)) == 0
  {
    if |d| != 0 {
      var n := |d| - 1;
      PickedZero(f, d[..n], m[..n]);
      PickSum(f, d, m);
    }
  }

  // --------------------------------------------------------------- every stage

  lemma {:induction false} ParsedRows(src: seq<RawRow>, dayFirst: bool)
    requires ParsedAll(src, dayFirst).Ok?
    ensures var d := ParsedAll(src, dayFirst).value;
      |d| == |src| && forall i :: 0 <= i < |d| ==> Parsed(i, src[i], dayFirst) == Ok(d[i])
  {
    hide Parsed;
    if |src| != 0 { ParsedRows(src[..|src|-1], dayFirst); }
  }

  lemma ParsedMeasures(source: nat, r: RawRow, dayFirst: bool)
    requires Parsed(source, r, dayFirst).Ok?
    ensures var p := Parsed(source, r, dayFirst).value;
      p.source == source && p.requests == NumberOf(r.requests) && p.tokens == NumberOf(r.tokens) &&
          p.cost == NumberOf(r.cost)
  {
  }

  lemma {:induction false} ParsedSums(src: seq<RawRow>, dayFirst: bool)
    requires ParsedAll(src, dayFirst).Ok?
    ensures Sums(ParsedAll(src, dayFirst).value) == RawTotals(src)
  {
    hide Parsed, Plus, Sums;
    if |src| == 0 {
      NothingSums();
    } else {
      var init := src[..|src|-1];
      ParsedSums(init, dayFirst);
      ParsedMeasures(|src| - 1, src[|src|-1], dayFirst);
      SumsSnoc(ParsedAll(init, dayFirst).value, Parsed(|src| - 1, src[|src|-1], dayFirst).value);
    }
  }

  lemma NothingSums()
    ensures Sums([]) == ZERO
  {
  }

  lemma SumsSnoc(d: Frame, r: Row)
    ensures Sums(d + [r]) == Plus(Sums(d), Totals(Val(r.requests), Val(r.tokens), Val(r.cost)))
  {
    SumSnoc(Requests(), d, r);
    SumSnoc(Tokens(), d, r);
    SumSnoc(Cost(), d, r);
  }

  lemma RelabelledZero(src: seq<RawRow>)
    ensures TotalDelta(Relabelled(src)) == ZERO && TotalDropped(Relabelled(src)) == 0
  {
    hide TotalDelta, TotalDropped;
    NoDelta(Relabelled(src));
    NoneDropped(Relabelled(src));
  }

  lemma {:induction false} NoDelta(log: seq<Entry>)
    requires forall i :: 0 <= i < |log| ==> log[i].delta == ZERO
    ensures TotalDelta(log) == ZERO
  {
    if |log| != 0 { NoDelta(log[..|log|-1]); }
  }

  lemma {:induction false} NoneDropped(log: seq<Entry>)
    requires forall i :: 0 <= i < |log| ==> log[i].dropped == 0
    ensures TotalDropped(log) == 0
  {
    if |log| != 0 { NoneDropped(log[..|log|-1]); }
  }

  lemma DedupeOk(d: Frame, sw: Switches)
    requires Ascending(d)
    ensures Balanced(d, Dedupe(d, sw)) && Lineage(d, Dedupe(d, sw).frame)
  {
    if sw.dedupe { DroppedOk(d, Repeats(d)); } else { LineageSelf(d); }
  }

  lemma RestatementsOk(d: Frame, sw: Switches)
    requires Ascending(d) && Restatements(d, sw).Ok?
    ensures Balanced(d, Restatements(d, sw).value) && Lineage(d, Restatements(d, sw).value.frame)
  {
    if Any(Conflicts(d)) {
      DroppedOk(d, if sw.keyDupes == "keep_first" then NotFirst(d) else NotLast(d));
    } else {
      LineageSelf(d);
    }
  }

  lemma ImputedCost(d: Frame, sw: Switches)
    requires Ascending(d)
    ensures var e := Costed(d, d, sw.rateBy, NoCost(d));
      && Rewrites(d, e, NoCost(d)) && Lineage(d, e)
      && Sums(e) == Plus(Sums(d), Totals(0, 0, Sums(Pick(e, NoCost(d))).cost))
      && NoTokens(e) == NoTokens(d)
  {
    hide Sorting.Sum, Pick;
    var m, e := NoCost(d), Costed(d, d, sw.rateBy, NoCost(d));
    RewriteLineage(d, e, m);
    RewriteSum(Cost(), d, e, m);
    PickedZero(Cost(), d, m);
    SameSum(Requests(), d, e);
    SameSum(Tokens(), d, e);
  }

  lemma ImputedTokens(d: Frame, priced: Frame, sw: Switches)
    requires Ascending(d) && AllFinite(d, priced, sw.rateBy, NoTokens(d))
    ensures var e := Tokened(d, priced, sw.rateBy, NoTokens(d));
      && Rewrites(d, e, NoTokens(d)) && Lineage(d, e)
      && Sums(e) == Plus(Sums(d), Totals(0, Sums(Pick(e, NoTokens(d))).tokens, 0))
      && forall i :: 0 <= i < |d| ==> e[i].cost == d[i].cost
  {
    hide Sorting.Sum, Pick;
    var m, e := NoTokens(d), Tokened(d, priced, sw.rateBy, NoTokens(d));
    RewriteLineage(d, e, m);
    RewriteSum(Tokens(), d, e, m);
    PickedZero(Tokens(), d, m);
    SameSum(Requests(), d, e);
    SameSum(Cost(), d, e);
  }

  lemma {:induction false} PickSameSum(f: Row -> int, d: Frame, e: Frame, m: Mask)
    requires |d| == |e| == |m| && forall i :: 0 <= i < |d| ==> f(e[i]) == f(d[i])
    ensures Sorting.Sum(f, Pick(e, m)) == Sorting.Sum(f, Pick(d, m))
  {
    hide Pick;
    if |d| != 0 {
      var n := |d| - 1;
      PickSameSum(f, d[..n], e[..n], m[..n]);
      PickSum(f, d, m);
      PickSum(f, e, m);
    }
  }

  lemma MissingOk(d: Frame, sw: Switches)
    requires Ascending(d) && Missing(d, sw).Ok?
    ensures Balanced(d, Missing(d, sw).value) && Lineage(d, Missing(d, sw).value.frame)
  {
    hide Sorting.Sum, Pick, Drop, Costed, Tokened, AllFinite;
    var mc, mt := NoCost(d), NoTokens(d);
    if sw.missing == "impute" {
      var e := Costed(d, d, sw.rateBy, mc);
      ImputedCost(d, sw);
      ImputedTokens(e, d, sw);
      var f := Tokened(e, d, sw.rateBy, mt);
      LineageOn(d, e, f);
      PickSameSum(Cost(), e, f, mc);
      TwoEntries(Entry(|Pick(d, mc)|, Totals(0, 0, Sums(Pick(f, mc)).cost), 0),
                 Entry(|Pick(d, mt)|, Totals(0, Sums(Pick(f, mt)).tokens, 0), 0));
    } else {
      DroppedOk(d, Either(mc, mt));
    }
  }

  // The policies the pipeline documents.
  predicate Documented(neg: string) { neg in {"impute", "abs", "drop"} }

  lemma RequestsRewritten(d: Frame, e: Frame, m: Mask)
    requires Ascending(d) && Rewrites(d, e, m)
    requires forall i :: 0 <= i < |d| ==> e[i].tokens == d[i].tokens && e[i].cost == d[i].cost
    ensures Balanced(d, Stage(e, [RequestsChange(d, e, m)])) && Lineage(d, e)
  {
    RewriteLineage(d, e, m);
    RewriteSum(Requests(), d, e, m);
    SameSum(Tokens(), d, e);
    SameSum(Cost(), d, e);
    OneEntry(RequestsChange(d, e, m));
  }

  lemma NegativeLineage(d: Frame, sw: Switches)
    requires Ascending(d) && Negative(d, sw).Ok?
    ensures Lineage(d, Negative(d, sw).value.frame)
    ensures Documented(sw.neg) || !Any(Impossible(d)) ==> Balanced(d, Negative(d, sw).value)
  {
    hide Sorting.Sum, Pick, Drop;
    var m := Impossible(d);
    LineageSelf(d);
    if Any(m) {
      if sw.neg == "impute" {
        RequestsRewritten(d, Counted(d, Drop(d, m), m), m);
      } else if sw.neg == "abs" {
        RequestsRewritten(d, Flipped(d, m), m);
      } else if sw.neg == "drop" {
        DroppedOk(d, m);
      }
    }
  }

  // Under any other policy the register closes exactly when the rows it says are gone
  // add up to nothing; the rows themselves are still there, and are not counted as gone.
  lemma NegativeUndocumented(d: Frame, sw: Switches)
    requires !Documented(sw.neg) && Any(Impossible(d))
    ensures Negative(d, sw).Ok? && Negative(d, sw).value.frame == d
    ensures TotalDropped(Negative(d, sw).value.log) == 0
    ensures TotalDelta(Negative(d, sw).value.log) == Minus(ZERO, Sums(Pick(d, Impossible(d))))
  {
    OneEntry(Entry(|Pick(d, Impossible(d))|, Minus(ZERO, Sums(Pick(d, Impossible(d)))), 0));
  }

  lemma CostRewritten(d: Frame, e: Frame, m: Mask)
    requires Ascending(d) && Rewrites(d, e, m)
    requires forall i :: 0 <= i < |d| ==> e[i].tokens == d[i].tokens && e[i].requests == d[i].requests
    ensures Balanced(d, Stage(e, [Entry(|Pick(d, m)|, Totals(0, 0, Sums(Pick(e, m)).cost - Sums(Pick(d, m)).cost), 0)]))
    ensures Lineage(d, e)
  {
    RewriteLineage(d, e, m);
    RewriteSum(Cost(), d, e, m);
    SameSum(Requests(), d, e);
    SameSum(Tokens(), d, e);
    OneEntry(Entry(|Pick(d, m)|, Totals(0, 0, Sums(Pick(e, m)).cost - Sums(Pick(d, m)).cost), 0));
  }

  lemma AnomalyOk(d: Frame, priced: Frame, sw: Switches)
    requires Ascending(d)
    ensures Balanced(d, Anomaly(d, priced, sw)) && Lineage(d, Anomaly(d, priced, sw).frame)
  {
    hide Sorting.Sum, Pick, Drop, Anomalous, Balanced, Lineage;
    var m := Anomalies(d, priced, sw);
    LineageSelf(d);
    NothingLogged(d);
    if Any(m) {
      if sw.anomaly == "restate" {
        CostRewritten(d, Restated(d, priced, sw.rateBy, m), m);
      } else if sw.anomaly == "drop" {
        DroppedOk(d, m);
      } else {
        NothingChanged(d, Entry(|Pick(d, m)|, ZERO, 0));
      }
    }
  }

  lemma NothingLogged(d: Frame)
    ensures Balanced(d, Stage(d, []))
  {
  }

  lemma NothingChanged(d: Frame, e: Entry)
    requires e.delta == ZERO && e.dropped == 0
    ensures Balanced(d, Stage(d, [e]))
  {
    hide Sums, Plus, TotalDelta, TotalDropped;
    PlusAssociates(Sums(d), ZERO, ZERO);
    OneEntry(e);
  }

  lemma ByDateIsOrder()
    ensures Sorting.TotalPreorder(ByDate())
  {
  }

  lemma FinishedSums(d: Frame)
    requires Finished(d).Ok?
    ensures Sums(Finished(d).value) == Sums(d) && |Finished(d).value| == |d|
  {
    ByDateIsOrder();
    Sorting.SortSorts(ByDate(), d);
    Sorting.SumOfPermutation(Requests(), d, Finished(d).value);
    Sorting.SumOfPermutation(Tokens(), d, Finished(d).value);
    Sorting.SumOfPermutation(Cost(), d, Finished(d).value);
  }

  // ------------------------------------------------------------- the whole pipeline

  lemma ParsedAscending(src: seq<RawRow>, dayFirst: bool)
    requires ParsedAll(src, dayFirst).Ok?
    ensures Ascending(ParsedAll(src, dayFirst).value)
  {
    ParsedRows(src, dayFirst);
    var d := ParsedAll(src, dayFirst).value;
    forall i | 0 <= i < |d| ensures d[i].source == i { ParsedMeasures(i, src[i], dayFirst); }
  }

  // `s` accounts for what became of the rows as parsed.
  ghost predicate Accounts(src: seq<RawRow>, dayFirst: bool, s: Stage) {
    var d := ParsedAll(src, dayFirst);
    d.Ok? && Balanced(d.value, s) && Lineage(d.value, s.frame)
  }

  lemma NextStage(src: seq<RawRow>, dayFirst: bool, s: Stage, t: Stage)
    requires Accounts(src, dayFirst, s) && Balanced(s.frame, t) && Lineage(s.frame, t.frame)
    ensures Accounts(src, dayFirst, Stage(t.frame, s.log + t.log))
  {
    var d := ParsedAll(src, dayFirst).value;
    BalancedOn(d, s, t);
    LineageOn(d, s.frame, t.frame);
  }

  lemma StageAscending(src: seq<RawRow>, dayFirst: bool, s: Stage)
    requires Accounts(src, dayFirst, s)
    ensures Ascending(s.frame)
  {
  }

  lemma Labelled(src: seq<RawRow>, dayFirst: bool)
    requires ParsedAll(src, dayFirst).Ok?
    ensures Accounts(src, dayFirst, Stage(ParsedAll(src, dayFirst).value, Relabelled(src)))
  {
    hide TotalDelta, TotalDropped, Plus, Sums, Relabelled;
    RelabelledZero(src);
    PlusAssociates(Sums(ParsedAll(src, dayFirst).value), ZERO, ZERO);
    ParsedAscending(src, dayFirst);
    LineageSelf(ParsedAll(src, dayFirst).value);
  }

  lemma UnpricedOk(src: seq<RawRow>, sw: Switches)
    requires Unpriced(src, sw).Ok?
    ensures Accounts(src, sw.dayFirst, Unpriced(src, sw).value)
  {
    hide Accounts, Balanced, Lineage, Ascending, Dedupe, Restatements, Relabelled;
    var d := ParsedAll(src, sw.dayFirst).value;
    var labelled := Stage(d, Relabelled(src));
    Labelled(src, sw.dayFirst);
    StageAscending(src, sw.dayFirst, labelled);
    DedupeOk(d, sw);
    var deduped := Dedupe(d, sw);
    NextStage(src, sw.dayFirst, labelled, deduped);
    StageAscending(src, sw.dayFirst, Stage(deduped.frame, labelled.log + deduped.log));
    RestatementsOk(deduped.frame, sw);
    NextStage(src, sw.dayFirst, Stage(deduped.frame, labelled.log + deduped.log),
        Restatements(deduped.frame, sw).value);
  }

  lemma MeasuredOk(src: seq<RawRow>, sw: Switches)
    requires Measured(src, sw).Ok?
    ensures Accounts(src, sw.dayFirst, Measured(src, sw).value)
  {
    hide Accounts, Balanced, Lineage, Ascending, Unpriced, Missing;
    UnpricedOk(src, sw);
    var u := Unpriced(src, sw).value;
    StageAscending(src, sw.dayFirst, u);
    MissingOk(u.frame, sw);
    NextStage(src, sw.dayFirst, u, Missing(u.frame, sw).value);
  }

  // The pipeline up to the sort.
  function Billed(src: seq<RawRow>, sw: Switches): Stage
    requires Measured(src, sw).Ok? && Negative(Measured(src, sw).value.frame, sw).Ok? && Unpriced(src, sw).Ok?
  {
    Anomaly(Negative(Measured(src, sw).value.frame, sw).value.frame, Unpriced(src, sw).value.frame, sw)
  }

  lemma MeasuredParts(src: seq<RawRow>, sw: Switches)
    requires Measured(src, sw).Ok?
    ensures Unpriced(src, sw).Ok?
  {
    hide Unpriced, Missing;
  }

  lemma CleanParts(src: seq<RawRow>, sw: Switches)
    requires Clean(src, sw).Ok?
    ensures Measured(src, sw).Ok? && Negative(Measured(src, sw).value.frame, sw).Ok? && Unpriced(src, sw).Ok?
    ensures var m, n, b := Measured(src, sw).value, Negative(Measured(src, sw).value.frame, sw).value, Billed(src, sw);
      Finished(b.frame).Ok? && Clean(src, sw).value == Stage(Finished(b.frame).value, m.log + n.log + b.log)
  {
    hide Measured, Negative, Anomaly, Unpriced, Finished;
    MeasuredParts(src, sw);
  }

  ghost predicate Closes(src: seq<RawRow>, s: Stage) {
    Plus(RawTotals(src), TotalDelta(s.log)) == Sums(s.frame)
  }

  // Rows in and rows logged as dropped give rows out, under every combination of switches.
  lemma RowsReconcile(src: seq<RawRow>, sw: Switches)
    requires Clean(src, sw).Ok?
    ensures |src| - TotalDropped(Clean(src, sw).value.log) == |Clean(src, sw).value.frame|
  {
    hide Measured, Negative, Anomaly, Unpriced, TotalDelta, TotalDropped, Sums, Plus, Clean;
    CleanParts(src, sw);
    var m, n, b := Measured(src, sw).value, Negative(Measured(src, sw).value.frame, sw).value, Billed(src, sw);
    MeasuredOk(src, sw);
    ParsedRows(src, sw.dayFirst);
    StageAscending(src, sw.dayFirst, m);
    NegativeRows(m.frame, sw);
    AnomalyOk(n.frame, Unpriced(src, sw).value.frame, sw);
    FinishedSums(b.frame);
    DroppedConcat(m.log, n.log);
    DroppedConcat(m.log + n.log, b.log);
  }

  lemma NegativeRows(d: Frame, sw: Switches)
    requires Ascending(d) && Negative(d, sw).Ok?
    ensures |Negative(d, sw).value.frame| == |d| - TotalDropped(Negative(d, sw).value.log)
    ensures Ascending(Negative(d, sw).value.frame)
  {
    hide Negative;
    NegativeLineage(d, sw);
    if !Documented(sw.neg) && Any(Impossible(d)) { NegativeUndocumented(d, sw); }
  }

  // What the register is short of, if anything: the rows it says went and that stayed.
  function Unexplained(src: seq<RawRow>, sw: Switches): Totals
    requires Measured(src, sw).Ok?
  {
    var d := Measured(src, sw).value.frame;
    if Documented(sw.neg) then ZERO else Sums(Pick(d, Impossible(d)))
  }

  lemma NegativeShort(d: Frame, sw: Switches)
    requires Ascending(d) && Negative(d, sw).Ok?
    ensures var n := Negative(d, sw).value;
      Plus(Sums(d), TotalDelta(n.log))
        == Minus(Sums(n.frame), if Documented(sw.neg) then ZERO else Sums(Pick(d, Impossible(d))))
  {
    hide Negative;
    NegativeLineage(d, sw);
    if !Documented(sw.neg) {
      if Any(Impossible(d)) {
        NegativeUndocumented(d, sw);
      } else {
        NothingPicked(d, Impossible(d));
        NothingSums();
      }
    }
  }

  lemma {:induction false} NothingPicked(d: Frame, m: Mask)
    requires |m| == |d| && !Any(m)
    ensures Pick(d, m) == []
  {
    if |d| != 0 { NothingPicked(d[..|d|-1], m[..|d|-1]); }
  }

  lemma AddUp(raw: Totals, a: Totals, b: Totals, c: Totals, m: Totals, n: Totals, out: Totals, short: Totals)
    requires m == Plus(raw, a) && Plus(m, b) == Minus(n, short) && out == Plus(n, c)
    ensures Plus(raw, Plus(Plus(a, b), c)) == Minus(out, short)
  {
  }

  lemma BalancedSums(d: Frame, s: Stage)
    requires Balanced(d, s)
    ensures Sums(s.frame) == Plus(Sums(d), TotalDelta(s.log))
  {
  }

  lemma MeasuredSums(src: seq<RawRow>, sw: Switches)
    requires Measured(src, sw).Ok?
    ensures var m := Measured(src, sw).value;
      Ascending(m.frame) && Sums(m.frame) == Plus(RawTotals(src), TotalDelta(m.log))
  {
    hide Measured, Sums, TotalDelta, TotalDropped, Plus;
    MeasuredOk(src, sw);
    ParsedSums(src, sw.dayFirst);
  }

  lemma Shortfall(src: seq<RawRow>, sw: Switches)
    requires Clean(src, sw).Ok? && Measured(src, sw).Ok?
    ensures Plus(RawTotals(src), TotalDelta(Clean(src, sw).value.log))
         == Minus(Sums(Clean(src, sw).value.frame), Unexplained(src, sw))
  {
    hide Measured, Negative, Anomaly, Unpriced, TotalDelta, TotalDropped, Sums, Clean, Pick, Impossible, Plus, Minus,
        Balanced;
    CleanParts(src, sw);
    var m, n, b := Measured(src, sw).value, Negative(Measured(src, sw).value.frame, sw).value, Billed(src, sw);
    MeasuredSums(src, sw);
    NegativeRows(m.frame, sw);
    NegativeShort(m.frame, sw);
    AnomalyOk(n.frame, Unpriced(src, sw).value.frame, sw);
    BalancedSums(n.frame, b);
    FinishedSums(b.frame);
    DeltaConcat(m.log, n.log);
    DeltaConcat(m.log + n.log, b.log);
    AddUp(RawTotals(src), TotalDelta(m.log), TotalDelta(n.log), TotalDelta(b.log),
          Sums(m.frame), Sums(n.frame), Sums(b.frame), Unexplained(src, sw));
  }

  // The totals reconcile exactly when the policy for impossible counts is one of the three
  // documented ones, or the rows with such counts add up to nothing.
  lemma TotalsReconcileIff(src: seq<RawRow>, sw: Switches)
    requires Clean(src, sw).Ok?
    ensures Measured(src, sw).Ok?
    ensures Closes(src, Clean(src, sw).value) <==>
      Documented(sw.neg)
      || Sums(Pick(Measured(src, sw).value.frame, Impossible(Measured(src, sw).value.frame))) == ZERO
  {
    hide Measured, TotalDelta, Sums, Clean, Pick, Impossible;
    CleanParts(src, sw);
    Shortfall(src, sw);
  }

  // One row with a negative count, and a policy the pipeline does not know.
  const REFUND: RawRow := RawRow(Iso(0), "Ops", "Chat", "m1", Number(-25), Number(1000), Number(100))
  const UNKNOWN_POLICY: Switches := Switches(true, false, "keep_first", "drop", "zero", "keep", 3.0, ByService)

  lemma ParsedOne(r: RawRow, dayFirst: bool)
    requires Parsed(0, r, dayFirst).Ok?
    ensures ParsedAll([r], dayFirst) == Ok([Parsed(0, r, dayFirst).value])
  {
    assert [r][..0] == [];
    assert ParsedAll([r][..0], dayFirst) == Ok([]);
    assert [] + [Parsed(0, r, dayFirst).value] == [Parsed(0, r, dayFirst).value];
  }

  // A frame of one complete row goes through the stages before the request counts as it is.
  lemma OneRowMeasured(r: RawRow, sw: Switches)
    requires Parsed(0, r, sw.dayFirst).Ok? && r.tokens.Number? && r.cost.Number?
    requires !sw.dedupe && sw.missing == "drop"
    ensures Measured([r], sw).Ok? && Measured([r], sw).value.frame == [Parsed(0, r, sw.dayFirst).value]
  {
    hide Parsed, Relabelled;
    ParsedOne(r, sw.dayFirst);
    ParsedMeasures(0, r, sw.dayFirst);
    var row := Parsed(0, r, sw.dayFirst).value;
    var d := [row];
    assert !Any(Conflicts(d));
    assert Either(NoCost(d), NoTokens(d)) == [false];
    DropNone(row);
  }

  lemma DropNone(r: Row)
    ensures Drop([r], [false]) == [r] && Pick([r], [true]) == [r]
  {
    assert [r][..0] == [] && [] + [r] == [r];
  }

  lemma SumOne(f: Row -> int, r: Row)
    ensures Sorting.Sum(f, [r]) == f(r)
  {
    assert [r][..0] == [];
  }

  lemma SumsOne(r: Row)
    ensures Sums([r]) == Totals(Val(r.requests), Val(r.tokens), Val(r.cost))
  {
    hide Sorting.Sum;
    SumOne(Requests(), r);
    SumOne(Tokens(), r);
    SumOne(Cost(), r);
  }

  lemma RefundParsed()
    ensures Parsed(0, REFUND, true).Ok?
    ensures var r := Parsed(0, REFUND, true).value; r.requests == Some(-25) && r.tokens == Some(1000)
  {
  }

  // It reaches the stage of the request counts, and is the one that is impossible.
  lemma RefundMeasured()
    ensures var m, r := Measured([REFUND], UNKNOWN_POLICY), Parsed(0, REFUND, true).value;
      m.Ok? && m.value.frame == [r] && Impossible([r]) == [true] && Pick([r], [true]) == [r]
    ensures Sums([Parsed(0, REFUND, true).value]) != ZERO
  {
    hide Parsed, Measured, Pick, Drop, Sums;
    RefundParsed();
    OneRowMeasured(REFUND, UNKNOWN_POLICY);
    DropNone(Parsed(0, REFUND, true).value);
    SumsOne(Parsed(0, REFUND, true).value);
  }

  // The register says the row went; it is still there, and the totals do not close.
  lemma UnknownPolicyDoesNotClose()
    ensures Clean([REFUND], UNKNOWN_POLICY).Ok? && !Closes([REFUND], Clean([REFUND], UNKNOWN_POLICY).value)
  {
    hide Measured, Unpriced, Relabelled, Anomaly, Negative, Pick, Drop, Sums, Dropped, RawTotals, Parsed, Impossible;
    hide Closes;
    var src, sw := [REFUND], UNKNOWN_POLICY;
    RefundParsed();
    RefundMeasured();
    var row := Parsed(0, REFUND, true).value;
    NegativeUndocumented([row], sw);
    MeasuredParts(src, sw);
    KeptAsBilled([row], Unpriced(src, sw).value.frame, sw);
    SortOne(row);
    TotalsReconcileIff(src, sw);
  }

  lemma KeptAsBilled(d: Frame, priced: Frame, sw: Switches)
    requires sw.anomaly == "keep"
    ensures Anomaly(d, priced, sw).frame == d
  {
    hide Anomalies;
  }

  lemma SortOne(r: Row)
    ensures Sorting.Sort(ByDate(), [r]) == [r]
  {
    assert [r][..0] == [];
  }

  // ------------------------------------------------------------ where rows come from

  ghost predicate InDateOrder(e: Frame) {
    forall i, j :: 0 <= i < j < |e| ==> e[i].date < e[j].date || (e[i].date == e[j].date && e[i].source < e[j].source)
  }

  lemma {:induction false} InsertByDate(x: Row, xs: Frame)
    requires InDateOrder(xs) && forall i :: 0 <= i < |xs| ==> xs[i].source < x.source
    ensures InDateOrder(Sorting.Insert(ByDate(), x, xs))
    ensures forall r :: r in Sorting.Insert(ByDate(), x, xs) ==> r == x || r in xs
  {
    if |xs| != 0 {
      var init, last := xs[..|xs|-1], xs[|xs|-1];
      assert xs == init + [last];
      if last.date > x.date {
        InsertByDate(x, init);
        var r := Sorting.Insert(ByDate(), x, init);
        forall i | 0 <= i < |r| ensures r[i].date < last.date || (r[i].date == last.date && r[i].source < last.source) {
          assert r[i] in r;
          if r[i] != x {
            var k :| 0 <= k < |init| && init[k] == r[i];
            assert xs[k] == r[i];
          }
        }
      }
    }
  }

  lemma {:induction false} SortIsStable(d: Frame)
    requires Ascending(d)
    ensures InDateOrder(Sorting.Sort(ByDate(), d))
    ensures forall r :: r in Sorting.Sort(ByDate(), d) ==> r in d
  {
    if |d| != 0 {
      var init, x := d[..|d|-1], d[|d|-1];
      SortIsStable(init);
      var s := Sorting.Sort(ByDate(), init);
      forall i | 0 <= i < |s| ensures s[i].source < x.source {
        assert s[i] in init;
        var k :| 0 <= k < |init| && init[k] == s[i];
        assert d[k] == s[i];
      }
      InsertByDate(x, s);
      assert d == init + [x];
    }
  }

  lemma BilledLineage(src: seq<RawRow>, sw: Switches)
    requires Clean(src, sw).Ok? && Measured(src, sw).Ok? && Unpriced(src, sw).Ok?
    requires Negative(Measured(src, sw).value.frame, sw).Ok?
    ensures ParsedAll(src, sw.dayFirst).Ok? && Lineage(ParsedAll(src, sw.dayFirst).value, Billed(src, sw).frame)
  {
    hide Measured, Negative, Anomaly, Unpriced, Clean, Lineage, Balanced;
    var m, n, b := Measured(src, sw).value, Negative(Measured(src, sw).value.frame, sw).value, Billed(src, sw);
    MeasuredOk(src, sw);
    LineageAscends(ParsedAll(src, sw.dayFirst).value, m.frame);
    NegativeLineage(m.frame, sw);
    LineageAscends(m.frame, n.frame);
    AnomalyOk(n.frame, Unpriced(src, sw).value.frame, sw);
    LineageOn(ParsedAll(src, sw.dayFirst).value, m.frame, n.frame);
    LineageOn(ParsedAll(src, sw.dayFirst).value, n.frame, b.frame);
  }

  lemma LineageAscends(d: Frame, e: Frame)
    requires Lineage(d, e)
    ensures Ascending(e)
  {
  }

  // Each row out is the row in that its `source` names, with its labels and date made
  // canonical; no two name the same one; they are in order of date, and on one date in
  // the order of the workbook.
  lemma RowsKeepTheirSource(src: seq<RawRow>, sw: Switches)
    requires Clean(src, sw).Ok?
    ensures var out := Clean(src, sw).value.frame;
      && InDateOrder(out)
      && (forall i, j :: 0 <= i < j < |out| ==> out[i].source != out[j].source)
      && forall i :: 0 <= i < |out| ==> OfSource(src, sw.dayFirst, out[i])
  {
    hide Measured, Negative, Anomaly, Unpriced, Clean, OfSource, Lineage, Parsed, ParsedAll, Sorting.Sort;
    CleanParts(src, sw);
    BilledLineage(src, sw);
    var d, e := ParsedAll(src, sw.dayFirst).value, Billed(src, sw).frame;
    LineageAscends(d, e);
    SortIsStable(e);
    SourcesDiffer(e, Sorting.Sort(ByDate(), e));
    var out := Sorting.Sort(ByDate(), e);
    forall i | 0 <= i < |out| ensures OfSource(src, sw.dayFirst, out[i]) {
      assert out[i] in out;
      var k :| 0 <= k < |e| && e[k] == out[i];
      FromSource(src, sw.dayFirst, e, k);
    }
  }

  ghost predicate OfSource(src: seq<RawRow>, dayFirst: bool, r: Row) {
    r.source < |src| && Parsed(r.source, src[r.source], dayFirst).Ok?
    && SameOrigin(Parsed(r.source, src[r.source], dayFirst).value, r)
  }

  lemma FromSource(src: seq<RawRow>, dayFirst: bool, e: Frame, k: nat)
    requires ParsedAll(src, dayFirst).Ok? && Lineage(ParsedAll(src, dayFirst).value, e) && k < |e|
    ensures OfSource(src, dayFirst, e[k])
  {
    var d := ParsedAll(src, dayFirst).value;
    ParsedRows(src, dayFirst);
    assert ComesFrom(d, e[k]);
    var i :| 0 <= i < |d| && SameOrigin(d[i], e[k]);
    ParsedMeasures(i, src[i], dayFirst);
  }

  lemma SourcesDiffer(e: Frame, out: Frame)
    requires Ascending(e) && out == Sorting.Sort(ByDate(), e)
    ensures forall i, j :: 0 <= i < j < |out| ==> out[i].source != out[j].source
  {
    ByDateIsOrder();
    Sorting.SortSorts(ByDate(), e);
    forall i, j | 0 <= i < j < |out| ensures out[i].source != out[j].source {
      SortIsStable(e);
      TwiceIn(e, out, i, j);
    }
  }

  lemma TwiceIn(e: Frame, out: Frame, i: nat, j: nat)
    requires Ascending(e) && multiset(out) == multiset(e) && i < j < |out| && InDateOrder(out)
    ensures out[i].source != out[j].source
  {
    assert out[i] in multiset(e) && out[j] in multiset(e);
    assert out[i] != out[j];
    var a :| 0 <= a < |e| && e[a] == out[i];
    var b :| 0 <= b < |e| && e[b] == out[j];
  }

  // ---------------------------------------------------------------- the price rule

  // A minority of rows billed off the rate does not move the rate they are judged by: it
  // stays, up to its rounding, where more than half of the prices lie.
  lemma RateIsRobust(d: Frame, rateBy: RateBy, k: string, lo: real, hi: real)
    requires var p := UnitPrices(d, rateBy, k);
      2 * Sorting.Sum(Stats.Within(lo, hi), p.finite) > p.low + |p.finite| + p.high
    ensures RateFor(d, rateBy, k).Some?
    ensures lo - 0.0005 <= RateFor(d, rateBy, k).value <= hi + 0.0005
  {
    hide UnitPrices, Stats.MedianOf, Stats.Round, Sorting.Sum;
    var p := UnitPrices(d, rateBy, k);
    Stats.MedianKeepsToTheMajority(p.low, p.finite, p.high, lo, hi);
    Stats.RoundIsNear(Stats.MedianOf(p.low, p.finite, p.high).value * 1000.0);
  }
}
