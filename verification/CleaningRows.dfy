/**
 What each stage does to each row: which rows go, which measures are supplied and within
 what bounds, and what no stage touches.
 */
module CleaningRows {
  import opened Cleaning
  import opened Labels
  import opened CleaningReconciles
  import opened CleaningOutcome
  import Sorting
  import Stats

  // -------------------------------------------------------------------- rows kept

  // A stage that drops keeps exactly the rows its mask spares.
  lemma {:induction false} KeptIff(d: Frame, m: Mask, r: Row)
    requires |m| == |d|
    ensures r in Drop(d, m) <==> exists i :: 0 <= i < |d| && !m[i] && d[i] == r
  {
    if |d| != 0 {
      var n := |d| - 1;
      KeptIff(d[..n], m[..n], r);
      DropSnoc(d, m);
      if i :| 0 <= i < n && !m[..n][i] && d[..n][i] == r { assert !m[i] && d[i] == r; }
      if i :| 0 <= i < |d| && !m[i] && d[i] == r {
        if i < n { assert !m[..n][i] && d[..n][i] == r; }
      }
    }
  }

  // Of equal rows the first is kept.
  lemma FirstOfEqualsKept(d: Frame, sw: Switches, r: Row)
    requires sw.dedupe
    ensures r in Dedupe(d, sw).frame <==>
      exists i :: 0 <= i < |d| && d[i] == r && forall j :: 0 <= j < i ==> !SameRow(d[j], d[i])
  {
    KeptIff(d, Repeats(d), r);
    if i :| 0 <= i < |d| && d[i] == r && forall j :: 0 <= j < i ==> !SameRow(d[j], d[i]) {
      assert !Repeats(d)[i];
    }
    if i :| 0 <= i < |d| && !Repeats(d)[i] && d[i] == r {
      forall j | 0 <= j < i ensures !SameRow(d[j], d[i]) { assert !Repeats(d)[i]; }
    }
  }

  // Row `i` shares its key with another row, and equals none.
  ghost predicate InConflict(d: Frame, i: nat)
    requires i < |d|
  {
    && (exists j :: 0 <= j < |d| && j != i && SameKey(d[j], d[i]))
    && (forall j :: 0 <= j < |d| && j != i ==> !SameRow(d[j], d[i]))
  }

  lemma ConflictsIff(d: Frame, i: nat)
    requires i < |d|
    ensures Conflicts(d)[i] <==> InConflict(d, i)
  {
  }

  ghost predicate SomeConflict(d: Frame) {
    exists i :: 0 <= i < |d| && InConflict(d, i)
  }

  lemma AnyConflict(d: Frame)
    ensures Any(Conflicts(d)) <==> SomeConflict(d)
  {
    hide InConflict;
    var m := Conflicts(d);
    if Any(m) { var i :| 0 <= i < |m| && m[i]; ConflictsIff(d, i); }
    if i :| 0 <= i < |d| && InConflict(d, i) { ConflictsIff(d, i); assert m[i]; }
  }

  lemma FirstOfKeyKept(d: Frame, r: Row)
    ensures r in Drop(d, NotFirst(d)) <==>
      exists i :: 0 <= i < |d| && d[i] == r && forall j :: 0 <= j < i ==> !SameKey(d[j], d[i])
  {
    hide SameKey, Drop;
    KeptIff(d, NotFirst(d), r);
    if i :| 0 <= i < |d| && d[i] == r && forall j :: 0 <= j < i ==> !SameKey(d[j], d[i]) { assert !NotFirst(d)[i]; }
    if i :| 0 <= i < |d| && !NotFirst(d)[i] && d[i] == r {
      forall j | 0 <= j < i ensures !SameKey(d[j], d[i]) { assert !NotFirst(d)[i]; }
    }
  }

  lemma LastOfKeyKept(d: Frame, r: Row)
    ensures r in Drop(d, NotLast(d)) <==>
      exists i :: 0 <= i < |d| && d[i] == r && forall j :: i < j < |d| ==> !SameKey(d[j], d[i])
  {
    hide SameKey, Drop;
    KeptIff(d, NotLast(d), r);
    if i :| 0 <= i < |d| && d[i] == r && forall j :: i < j < |d| ==> !SameKey(d[j], d[i]) { assert !NotLast(d)[i]; }
    if i :| 0 <= i < |d| && !NotLast(d)[i] && d[i] == r {
      forall j | i < j < |d| ensures !SameKey(d[j], d[i]) { assert !NotLast(d)[i]; }
    }
  }

  // Rows of one key with different measures stop the pipeline, or leave the first or the last
  // of each key; without any, nothing goes.
  lemma RestatementsSettled(d: Frame, sw: Switches, r: Row)
    ensures Restatements(d, sw).Stopped? <==> SomeConflict(d) && sw.keyDupes == "raise"
    ensures !SomeConflict(d) ==> Restatements(d, sw) == Ok(Stage(d, []))
    ensures SomeConflict(d) && sw.keyDupes == "keep_first" ==>
      (r in Restatements(d, sw).value.frame <==>
        exists i :: 0 <= i < |d| && d[i] == r && forall j :: 0 <= j < i ==> !SameKey(d[j], d[i]))
    ensures SomeConflict(d) && sw.keyDupes !in {"raise", "keep_first"} ==>
      (r in Restatements(d, sw).value.frame <==>
        exists i :: 0 <= i < |d| && d[i] == r && forall j :: i < j < |d| ==> !SameKey(d[j], d[i]))
  {
    hide SomeConflict, Conflicts, NotFirst, NotLast, Drop, Pick, Sums, SameKey;
    AnyConflict(d);
    FirstOfKeyKept(d, r);
    LastOfKeyKept(d, r);
  }

  // ------------------------------------------------------------ stage 6, row by row

  // The rows of a service with tokens and a possible count of requests, ...
  function Sound(d: Frame, service: string): set<nat> {
    set i: nat | i < |d| && d[i].service == service && d[i].tokens.Some? && d[i].requests.Some?
                 && d[i].requests.value > 0
  }

  // ... and those of them that used between `lo` and `hi` tokens per request.
  function SoundWithin(d: Frame, service: string, lo: real, hi: real): set<nat> {
    set i: nat | i < |d| && i in Sound(d, service)
                 && lo * d[i].requests.value as real <= d[i].tokens.value as real <= hi * d[i].requests.value as real
  }

  lemma SoundOfMore(d: Frame, r: Row, service: string, lo: real, hi: real)
    ensures var counted := r.service == service && r.tokens.Some? && r.requests.Some? && r.requests.value > 0;
      var near := counted
        && lo * r.requests.value as real <= r.tokens.value as real <= hi * r.requests.value as real;
      && Sound(d + [r], service) == Sound(d, service) + (if counted then {|d|} else {})
      && SoundWithin(d + [r], service, lo, hi) == SoundWithin(d, service, lo, hi) + (if near then {|d|} else {})
      && |d| !in Sound(d, service) && |d| !in SoundWithin(d, service, lo, hi)
  {
    var e := d + [r];
    assert e[|d|] == r && forall i :: 0 <= i < |d| ==> e[i] == d[i];
  }

  lemma SoundCounts(d: Frame, r: Row, service: string, lo: real, hi: real)
    ensures var counted := r.service == service && r.tokens.Some? && r.requests.Some? && r.requests.value > 0;
      var near := counted
        && lo * r.requests.value as real <= r.tokens.value as real <= hi * r.requests.value as real;
      && |Sound(d + [r], service)| == |Sound(d, service)| + (if counted then 1 else 0)
      && |SoundWithin(d + [r], service, lo, hi)| == |SoundWithin(d, service, lo, hi)| + (if near then 1 else 0)
  {
    hide Sound, SoundWithin;
    SoundOfMore(d, r, service, lo, hi);
  }

  lemma RatioWithin(tokens: int, requests: int, lo: real, hi: real)
    requires requests > 0
    ensures lo <= tokens as real / requests as real <= hi <==>
      lo * requests as real <= tokens as real <= hi * requests as real
  {
    var q, n := tokens as real / requests as real, requests as real;
    assert q * n == tokens as real;
    Monotone(lo, q, n);
    Monotone(q, hi, n);
  }

  lemma Monotone(a: real, b: real, n: real)
    requires n > 0.0
    ensures a <= b <==> a * n <= b * n
  {
    if a < b { assert (b - a) * n > 0.0; } else if b < a { assert (a - b) * n > 0.0; }
  }

  lemma {:induction false} RatiosAreRows(d: Frame, service: string, lo: real, hi: real)
    ensures |TokensPerRequest(d, service)| == |Sound(d, service)|
    ensures Sorting.Sum(Stats.Within(lo, hi), TokensPerRequest(d, service)) == |SoundWithin(d, service, lo, hi)|
  {
    hide Sound, SoundWithin;
    if |d| == 0 {
      NoneSound(d, service, lo, hi);
    } else {
      var init, r := d[..|d|-1], d[|d|-1];
      RatiosAreRows(init, service, lo, hi);
      SoundCounts(init, r, service, lo, hi);
      RatiosOfMore(init, r, service, lo, hi);
      assert d == init + [r];
    }
  }

  lemma RatiosOfMore(d: Frame, r: Row, service: string, lo: real, hi: real)
    ensures var counted := r.service == service && r.tokens.Some? && r.requests.Some? && r.requests.value > 0;
      var near := counted
        && lo * r.requests.value as real <= r.tokens.value as real <= hi * r.requests.value as real;
      var rs, more := TokensPerRequest(d, service), TokensPerRequest(d + [r], service);
      && |more| == |rs| + (if counted then 1 else 0)
      && Sorting.Sum(Stats.Within(lo, hi), more) == Sorting.Sum(Stats.Within(lo, hi), rs) + (if near then 1 else 0)
  {
    hide Sorting.Sum;
    assert (d + [r])[..|d|] == d;
    if r.service == service && r.tokens.Some? && r.requests.Some? && r.requests.value > 0 {
      RatioWithin(r.tokens.value, r.requests.value, lo, hi);
      SumOfMore(Stats.Within(lo, hi), TokensPerRequest(d, service), r.tokens.value as real / r.requests.value as real);
    }
  }

  lemma NoneSound(d: Frame, service: string, lo: real, hi: real)
    requires |d| == 0
    ensures Sound(d, service) == {} && SoundWithin(d, service, lo, hi) == {}
  {
  }

  lemma SumOfMore(f: real -> int, xs: seq<real>, x: real)
    ensures Sorting.Sum(f, xs + [x]) == Sorting.Sum(f, xs) + f(x)
  {
    assert (xs + [x])[..|xs|] == xs;
  }

  // The rows that are to be repaired are not among those the typical ratio comes from.
  lemma {:induction false} OnlySoundRowsCount(d: Frame, m: Mask, service: string)
    requires |m| == |d| && forall i :: 0 <= i < |d| ==> (m[i] <==> d[i].requests.Some? && d[i].requests.value <= 0)
    ensures TokensPerRequest(Drop(d, m), service) == TokensPerRequest(d, service)
  {
    if |d| != 0 {
      var n := |d| - 1;
      OnlySoundRowsCount(d[..n], m[..n], service);
      DropSnoc(d, m);
      if !m[n] {
        var e := Drop(d[..n], m[..n]);
        assert (e + [d[n]])[..|e|] == e;
      }
    }
  }

  // The ratio a count is imputed from lies where those of more than half of the sound rows of
  // the service lie.
  lemma TypicalIsRobust(d: Frame, service: string, lo: real, hi: real)
    requires 2 * |SoundWithin(d, service, lo, hi)| > |Sound(d, service)|
    ensures var typical := TypicalFor(Drop(d, Impossible(d)), service);
      typical.Some? && lo <= typical.value <= hi
  {
    hide Sorting.Sum, Stats.MedianOf, Sound, SoundWithin, Drop;
    OnlySoundRowsCount(d, Impossible(d), service);
    RatiosAreRows(d, service, lo, hi);
    var rs := TokensPerRequest(d, service);
    Stats.AllWithin(rs, lo, hi);
    Stats.MedianKeepsToTheMajority(0, rs, 0, lo, hi);
    assert Stats.Median(rs) == Stats.MedianOf(0, rs, 0).value;
  }

  // A quotient rounded to the nearest whole number.
  lemma NearestQuotient(tokens: int, typical: real, n: int)
    requires typical > 0.0 && n == Stats.Round(tokens as real / typical)
    ensures (n as real - 0.5) * typical <= tokens as real <= (n as real + 0.5) * typical
  {
    hide Stats.Round;
    var q, p := tokens as real / typical, tokens as real;
    Stats.RoundIsNear(q);
    Product(q, typical, p);
    Between(n as real, q, typical, p);
  }

  lemma Between(m: real, q: real, d: real, p: real)
    requires d > 0.0 && q * d == p && q - 0.5 <= m <= q + 0.5
    ensures (m - 0.5) * d <= p <= (m + 0.5) * d
  {
    NotNegative(q - m + 0.5, d);
    NotNegative(m - q + 0.5, d);
  }

  lemma NotNegative(a: real, d: real)
    requires a >= 0.0 && d > 0.0
    ensures a * d >= 0.0
  {
  }

  lemma Product(q: real, d: real, p: real)
    requires d != 0.0 && q == p / d
    ensures q * d == p
  {
  }

  // Stage 6 rewrites the count of exactly the rows that report none or fewer: to the number of
  // typical requests that their tokens make, or to the reported number without its sign; or it
  // lets exactly those rows go.
  lemma ImpossibleCountsRepaired(d: Frame, sw: Switches, i: nat)
    requires Negative(d, sw).Ok? && i < |d| && sw.neg in {"impute", "abs"}
    ensures var e := Negative(d, sw).value.frame;
      && |e| == |d| && e[i].(requests := d[i].requests) == d[i]
      && (d[i].requests.None? || d[i].requests.value > 0 ==> e[i] == d[i])
      && (d[i].requests.Some? && d[i].requests.value <= 0 && sw.neg == "abs" ==>
            e[i].requests == Some(-d[i].requests.value))
      && (d[i].requests.Some? && d[i].requests.value <= 0 && sw.neg == "impute" ==>
            var typical := TypicalFor(Drop(d, Impossible(d)), d[i].service);
            if typical.None? || d[i].tokens.None? then e[i].requests.None?
            else typical.value > 0.0 ==>
              && e[i].requests.Some?
              && (e[i].requests.value as real - 0.5) * typical.value <= d[i].tokens.value as real
              && d[i].tokens.value as real <= (e[i].requests.value as real + 0.5) * typical.value)
  {
    hide TypicalFor, Stats.Round, Pick, Sums, Drop;
    var m := Impossible(d);
    if Any(m) {
      var typical := TypicalFor(Drop(d, m), d[i].service);
      if sw.neg == "impute" && m[i] && typical.Some? && d[i].tokens.Some? && typical.value > 0.0 {
        NearestQuotient(d[i].tokens.value, typical.value, Stats.Round(d[i].tokens.value as real / typical.value));
      }
    } else {
      assert m[i] ==> Any(m);
    }
  }

  lemma ImpossibleRowsDropped(d: Frame, sw: Switches, r: Row)
    requires sw.neg == "drop"
    ensures Negative(d, sw).Ok?
    ensures r in Negative(d, sw).value.frame <==> r in d && (r.requests.None? || r.requests.value > 0)
  {
    hide Pick, Sums, Drop;
    var m := Impossible(d);
    KeptIff(d, m, r);
    if r in d { var i :| 0 <= i < |d| && d[i] == r; assert m[i] ==> Any(m); }
    if i :| 0 <= i < |d| && !m[i] && d[i] == r { assert r in d; }
  }

  // ------------------------------------------------------------ the price rule, row by row

  // The label that prices go by.
  lemma KeyIs(r: Row, rateBy: RateBy)
    ensures KeyOf(r, rateBy) == if rateBy == ByTeam then r.team else if rateBy == ByModel then r.model else r.service
  {
  }

  // The rows that show a price of key `k`, ...
  function Priced(d: Frame, rateBy: RateBy, k: string): set<nat> {
    set i: nat | i < |d| && KeyOf(d[i], rateBy) == k && d[i].cost.Some? && d[i].tokens.Some?
                 && !(d[i].cost.value == 0 && d[i].tokens.value == 0)
  }

  // ... and those of them that cost between `lo` and `hi` dollars per thousand tokens.
  function PricedWithin(d: Frame, rateBy: RateBy, k: string, lo: real, hi: real): set<nat> {
    set i: nat | i < |d| && i in Priced(d, rateBy, k) && d[i].tokens.value > 0
                 && lo * d[i].tokens.value as real / 1000.0 <= d[i].cost.value as real / 100.0
                 && d[i].cost.value as real / 100.0 <= hi * d[i].tokens.value as real / 1000.0
  }

  lemma PricedOfMore(d: Frame, r: Row, rateBy: RateBy, k: string, lo: real, hi: real)
    ensures var counted := KeyOf(r, rateBy) == k && r.cost.Some? && r.tokens.Some?
        && !(r.cost.value == 0 && r.tokens.value == 0);
      var near := counted && r.tokens.value > 0
        && lo * r.tokens.value as real / 1000.0 <= r.cost.value as real / 100.0
        && r.cost.value as real / 100.0 <= hi * r.tokens.value as real / 1000.0;
      && Priced(d + [r], rateBy, k) == Priced(d, rateBy, k) + (if counted then {|d|} else {})
      && PricedWithin(d + [r], rateBy, k, lo, hi) == PricedWithin(d, rateBy, k, lo, hi) + (if near then {|d|} else {})
      && |d| !in Priced(d, rateBy, k) && |d| !in PricedWithin(d, rateBy, k, lo, hi)
  {
    var e := d + [r];
    assert e[|d|] == r && forall i :: 0 <= i < |d| ==> e[i] == d[i];
  }

  lemma PricedCounts(d: Frame, r: Row, rateBy: RateBy, k: string, lo: real, hi: real)
    ensures var counted := KeyOf(r, rateBy) == k && r.cost.Some? && r.tokens.Some?
        && !(r.cost.value == 0 && r.tokens.value == 0);
      var near := counted && r.tokens.value > 0
        && lo * r.tokens.value as real / 1000.0 <= r.cost.value as real / 100.0
        && r.cost.value as real / 100.0 <= hi * r.tokens.value as real / 1000.0;
      && |Priced(d + [r], rateBy, k)| == |Priced(d, rateBy, k)| + (if counted then 1 else 0)
      && |PricedWithin(d + [r], rateBy, k, lo, hi)|
         == |PricedWithin(d, rateBy, k, lo, hi)| + (if near then 1 else 0)
  {
    hide Priced, PricedWithin, KeyOf;
    PricedOfMore(d, r, rateBy, k, lo, hi);
  }

  lemma PriceWithin(cost: int, tokens: int, lo: real, hi: real)
    requires tokens > 0 && lo * tokens as real / 1000.0 <= cost as real / 100.0 <= hi * tokens as real / 1000.0
    ensures lo <= cost as real / 100.0 / tokens as real * 1000.0 <= hi
  {
    var n, dollars := tokens as real, cost as real / 100.0;
    var q := dollars / n;
    assert q * n == dollars;
    assert (lo / 1000.0) * n <= q * n <= (hi / 1000.0) * n;
    Monotone(lo / 1000.0, q, n);
    Monotone(q, hi / 1000.0, n);
  }

  function Size(p: Prices): nat { p.low + |p.finite| + p.high }

  lemma {:induction false} PricesAreRows(d: Frame, rateBy: RateBy, k: string, lo: real, hi: real)
    ensures Size(UnitPrices(d, rateBy, k)) == |Priced(d, rateBy, k)|
    ensures Sorting.Sum(Stats.Within(lo, hi), UnitPrices(d, rateBy, k).finite) >= |PricedWithin(d, rateBy, k, lo, hi)|
  {
    hide Priced, PricedWithin, KeyOf;
    if |d| == 0 {
      NonePriced(d, rateBy, k, lo, hi);
    } else {
      var init, r := d[..|d|-1], d[|d|-1];
      PricesAreRows(init, rateBy, k, lo, hi);
      PricedCounts(init, r, rateBy, k, lo, hi);
      PricesOfMore(init, r, rateBy, k, lo, hi);
      assert d == init + [r];
    }
  }

  lemma PricesOfMore(d: Frame, r: Row, rateBy: RateBy, k: string, lo: real, hi: real)
    ensures var counted := KeyOf(r, rateBy) == k && r.cost.Some? && r.tokens.Some?
        && !(r.cost.value == 0 && r.tokens.value == 0);
      var near := counted && r.tokens.value > 0
        && lo * r.tokens.value as real / 1000.0 <= r.cost.value as real / 100.0
        && r.cost.value as real / 100.0 <= hi * r.tokens.value as real / 1000.0;
      var p, more := UnitPrices(d, rateBy, k), UnitPrices(d + [r], rateBy, k);
      && Size(more) == Size(p) + (if counted then 1 else 0)
      && Sorting.Sum(Stats.Within(lo, hi), more.finite)
         >= Sorting.Sum(Stats.Within(lo, hi), p.finite) + (if near then 1 else 0)
  {
    hide Sorting.Sum, KeyOf;
    assert (d + [r])[..|d|] == d;
    if KeyOf(r, rateBy) == k && r.cost.Some? && r.tokens.Some? && r.tokens.value != 0 {
      var price := r.cost.value as real / 100.0 / r.tokens.value as real * 1000.0;
      SumOfMore(Stats.Within(lo, hi), UnitPrices(d, rateBy, k).finite, price);
      if r.tokens.value > 0 && lo * r.tokens.value as real / 1000.0 <= r.cost.value as real / 100.0
         && r.cost.value as real / 100.0 <= hi * r.tokens.value as real / 1000.0 {
        PriceWithin(r.cost.value, r.tokens.value, lo, hi);
      }
    }
  }

  lemma NonePriced(d: Frame, rateBy: RateBy, k: string, lo: real, hi: real)
    requires |d| == 0
    ensures Priced(d, rateBy, k) == {} && PricedWithin(d, rateBy, k, lo, hi) == {}
  {
  }

  // The rate of a key lies, up to its rounding to three places, where more than half of the
  // rows that show a price of it are billed.
  lemma RateIsWhatMostPay(d: Frame, rateBy: RateBy, k: string, lo: real, hi: real)
    requires 2 * |PricedWithin(d, rateBy, k, lo, hi)| > |Priced(d, rateBy, k)|
    ensures var rate := RateFor(d, rateBy, k);
      && rate.Some? && lo - 0.0005 <= rate.value <= hi + 0.0005
      && (rate.value * 1000.0).Floor as real == rate.value * 1000.0
  {
    hide UnitPrices, Sorting.Sum, Stats.MedianOf, Stats.Round, Priced, PricedWithin;
    PricesAreRows(d, rateBy, k, lo, hi);
    RateIsRobust(d, rateBy, k, lo, hi);
  }

  // Stage 5 supplies a measure exactly where one of the two is blank and the key has a rate:
  // the price of the tokens to the cent, or the tokens the cost buys to the token.
  lemma BlanksFilled(d: Frame, sw: Switches, i: nat)
    requires Missing(d, sw).Ok? && sw.missing == "impute" && i < |d|
    ensures var e, rate := Missing(d, sw).value.frame, RateFor(d, sw.rateBy, KeyOf(d[i], sw.rateBy));
      && |e| == |d| && e[i].(cost := d[i].cost, tokens := d[i].tokens) == d[i]
      && (d[i].cost.Some? ==> e[i].cost == d[i].cost) && (d[i].tokens.Some? ==> e[i].tokens == d[i].tokens)
      && (d[i].cost.None? && d[i].tokens.Some? ==>
            (e[i].cost.Some? <==> rate.Some?)
            && (rate.Some? ==>
                  -0.005 <= e[i].cost.value as real / 100.0 - d[i].tokens.value as real * rate.value / 1000.0 <= 0.005))
      && (d[i].tokens.None? && d[i].cost.Some? ==>
            (e[i].tokens.Some? <==> rate.Some?)
            && (rate.Some? && rate.value > 0.0 ==>
                  && (e[i].tokens.value as real - 0.5) * rate.value <= d[i].cost.value as real * 10.0
                  && d[i].cost.value as real * 10.0 <= (e[i].tokens.value as real + 0.5) * rate.value))
  {
    hide RateFor, Stats.Round, Pick, Sums, NoneUnbounded;
    var mc, mt := NoCost(d), NoTokens(d);
    var e := Costed(d, d, sw.rateBy, mc);
    assert AllFinite(e, d, sw.rateBy, mt);
    assert Missing(d, sw).value.frame == Tokened(e, d, sw.rateBy, mt);
    var rate := RateFor(d, sw.rateBy, KeyOf(d[i], sw.rateBy));
    assert mc[i] == d[i].cost.None? && mt[i] == d[i].tokens.None?;
    assert KeyOf(e[i], sw.rateBy) == KeyOf(d[i], sw.rateBy);
    if mc[i] && !mt[i] && rate.Some? { ToTheCent(Price(d[i].tokens.value, rate.value)); }
    if mt[i] && !mc[i] && rate.Some? && rate.value > 0.0 {
      NearestPurchase(d[i].cost.value, rate.value);
    }
  }

  lemma NearestPurchase(cost: int, rate: real)
    requires rate > 0.0
    ensures var n := Stats.Round(Bought(cost, rate)) as real;
      (n - 0.5) * rate <= cost as real * 10.0 <= (n + 0.5) * rate
  {
    hide Stats.Round;
    var dollars := cost as real / 100.0;
    var t, q := dollars / rate, Bought(cost, rate);
    Product(t, rate, dollars);
    Thousandfold(t, rate, dollars);
    Stats.RoundIsNear(q);
    var n := Stats.Round(q) as real;
    Monotone(n - 0.5, q, rate);
    Monotone(q, n + 0.5, rate);
  }

  lemma Thousandfold(t: real, rate: real, dollars: real)
    requires t * rate == dollars
    ensures (t * 1000.0) * rate == dollars * 1000.0
  {
  }

  // Under any other policy the rows with a blank go, and no others.
  lemma BlankRowsDropped(d: Frame, sw: Switches, r: Row)
    requires sw.missing != "impute"
    ensures Missing(d, sw).Ok?
    ensures r in Missing(d, sw).value.frame <==> r in d && r.cost.Some? && r.tokens.Some?
  {
    hide Pick, Sums, Drop;
    KeptIff(d, Either(NoCost(d), NoTokens(d)), r);
  }

  // ------------------------------------------------------------ stage 7, row by row

  // The row is billed at more than `factor` times the price of its tokens.
  predicate Overbilled(r: Row, rate: Option<real>, factor: real) {
    && r.cost.Some? && r.tokens.Some? && rate.Some?
    && var price := r.tokens.value as real * rate.value / 1000.0;
       if price > 0.0 then r.cost.value as real / 100.0 > factor * price
       else if price < 0.0 then r.cost.value as real / 100.0 < factor * price
       else r.cost.value > 0
  }

  lemma OverbilledIff(r: Row, rate: Option<real>, factor: real)
    ensures Anomalous(r, rate, factor) <==> Overbilled(r, rate, factor)
  {
    if r.cost.Some? && r.tokens.Some? && rate.Some? {
      var price, billed := r.tokens.value as real * rate.value / 1000.0, r.cost.value as real / 100.0;
      if price != 0.0 {
        var q := billed / price;
        assert q * price == billed;
        if price > 0.0 { Monotone(q, factor, price); } else { Monotone(q, factor, -price); }
      }
    }
  }

  // Stage 7 touches exactly the rows that are overbilled: their cost becomes the price of the
  // tokens to the cent, or they go, or they stay as they were.
  lemma OverbilledRestated(d: Frame, priced: Frame, sw: Switches, i: nat)
    requires i < |d| && sw.anomaly != "drop"
    ensures var e, rate := Anomaly(d, priced, sw).frame, RateFor(priced, sw.rateBy, KeyOf(d[i], sw.rateBy));
      && |e| == |d| && e[i].(cost := d[i].cost) == d[i]
      && (sw.anomaly != "restate" || !Overbilled(d[i], rate, sw.factor) ==> e[i] == d[i])
      && (sw.anomaly == "restate" && Overbilled(d[i], rate, sw.factor) ==>
            && e[i].cost.Some?
            && -0.005 <= e[i].cost.value as real / 100.0 - d[i].tokens.value as real * rate.value / 1000.0 <= 0.005)
  {
    hide RateFor, Stats.Round, Pick, Sums;
    var m, rate := Anomalies(d, priced, sw), RateFor(priced, sw.rateBy, KeyOf(d[i], sw.rateBy));
    OverbilledIff(d[i], rate, sw.factor);
    assert m[i] ==> Any(m);
    if m[i] { ToTheCent(Price(d[i].tokens.value, rate.value)); }
  }

  lemma OverbilledDropped(d: Frame, priced: Frame, sw: Switches, r: Row)
    requires sw.anomaly == "drop"
    ensures r in Anomaly(d, priced, sw).frame <==>
      r in d && !Overbilled(r, RateFor(priced, sw.rateBy, KeyOf(r, sw.rateBy)), sw.factor)
  {
    hide Pick, Sums, Drop, RateFor, Anomalous;
    var m := Anomalies(d, priced, sw);
    KeptIff(d, m, r);
    OverbilledIff(r, RateFor(priced, sw.rateBy, KeyOf(r, sw.rateBy)), sw.factor);
    if r in d { var i :| 0 <= i < |d| && d[i] == r; assert m[i] ==> Any(m); }
    if i :| 0 <= i < |d| && !m[i] && d[i] == r { assert r in d; }
  }

  // ------------------------------------------------------- what no stage touches

  // The same row of the workbook, with the measures that were sound as they were.
  predicate Evolves(a: Row, b: Row) {
    && b.source == a.source && b.date == a.date && b.team == a.team && b.service == a.service && b.model == a.model
    && (a.tokens.Some? ==> b.tokens == a.tokens)
    && (a.requests.Some? && a.requests.value > 0 ==> b.requests == a.requests)
    && (a.cost.Some? ==> b.cost.Some?)
  }

  ghost predicate HasAncestor(d: Frame, r: Row) {
    exists i :: 0 <= i < |d| && Evolves(d[i], r)
  }

  ghost predicate Descends(d: Frame, e: Frame) {
    forall k :: 0 <= k < |e| ==> HasAncestor(d, e[k])
  }

  lemma DescendsOn(d: Frame, e: Frame, f: Frame)
    requires Descends(d, e) && Descends(e, f)
    ensures Descends(d, f)
  {
    forall k | 0 <= k < |f| ensures HasAncestor(d, f[k]) {
      assert HasAncestor(e, f[k]);
      var j :| 0 <= j < |e| && Evolves(e[j], f[k]);
      assert HasAncestor(d, e[j]);
      var i :| 0 <= i < |d| && Evolves(d[i], e[j]);
      assert Evolves(d[i], f[k]);
    }
  }

  lemma SubsetDescends(d: Frame, e: Frame)
    requires forall r :: r in e ==> r in d
    ensures Descends(d, e)
  {
    forall k | 0 <= k < |e| ensures HasAncestor(d, e[k]) {
      assert e[k] in d;
      var i :| 0 <= i < |d| && d[i] == e[k];
      assert Evolves(d[i], e[k]);
    }
  }

  lemma RowwiseDescends(d: Frame, e: Frame)
    requires |e| == |d| && forall i :: 0 <= i < |d| ==> Evolves(d[i], e[i])
    ensures Descends(d, e)
  {
    forall k | 0 <= k < |e| ensures HasAncestor(d, e[k]) { assert Evolves(d[k], e[k]); }
  }

  lemma DropDescends(d: Frame, m: Mask)
    requires |m| == |d|
    ensures Descends(d, Drop(d, m))
  {
    forall r | r in Drop(d, m) ensures r in d { KeptIff(d, m, r); }
    SubsetDescends(d, Drop(d, m));
  }

  lemma UnpricedDescends(src: seq<RawRow>, sw: Switches)
    requires Unpriced(src, sw).Ok?
    ensures ParsedAll(src, sw.dayFirst).Ok?
    ensures Descends(ParsedAll(src, sw.dayFirst).value, Unpriced(src, sw).value.frame)
  {
    hide Descends, Drop, Pick;
    var d := ParsedAll(src, sw.dayFirst).value;
    var e := Dedupe(d, sw).frame;
    SelfDescends(d);
    DropDescends(d, Repeats(d));
    SelfDescends(e);
    DropDescends(e, NotFirst(e));
    DropDescends(e, NotLast(e));
    DescendsOn(d, e, Unpriced(src, sw).value.frame);
  }

  lemma SelfDescends(d: Frame)
    ensures Descends(d, d)
  {
    SubsetDescends(d, d);
  }

  lemma MissingDescends(d: Frame, sw: Switches)
    requires Missing(d, sw).Ok?
    ensures Descends(d, Missing(d, sw).value.frame)
  {
    hide Missing, RateFor, KeyOf;
    var e := Missing(d, sw).value.frame;
    if sw.missing == "impute" {
      if |d| > 0 { BlanksFilled(d, sw, 0); } else { NoBlanks(d, sw); }
      forall i | 0 <= i < |d| ensures Evolves(d[i], e[i]) { BlanksFilled(d, sw, i); }
      RowwiseDescends(d, e);
    } else {
      forall r | r in e ensures r in d { BlankRowsDropped(d, sw, r); }
      SubsetDescends(d, e);
    }
  }

  lemma NoBlanks(d: Frame, sw: Switches)
    requires |d| == 0 && Missing(d, sw).Ok? && sw.missing == "impute"
    ensures |Missing(d, sw).value.frame| == 0
  {
  }

  lemma NegativeDescends(d: Frame, sw: Switches)
    requires Negative(d, sw).Ok?
    ensures Descends(d, Negative(d, sw).value.frame)
  {
    hide Negative, TypicalFor, Drop;
    var e := Negative(d, sw).value.frame;
    if sw.neg in {"impute", "abs"} {
      if |d| > 0 { ImpossibleCountsRepaired(d, sw, 0); } else { NoneImpossible(d, sw); }
      forall i | 0 <= i < |d| ensures Evolves(d[i], e[i]) { ImpossibleCountsRepaired(d, sw, i); }
      RowwiseDescends(d, e);
    } else if sw.neg == "drop" {
      forall r | r in e ensures r in d { ImpossibleRowsDropped(d, sw, r); }
      SubsetDescends(d, e);
    } else {
      OtherPolicyKeeps(d, sw);
      SelfDescends(d);
    }
  }

  lemma NoneImpossible(d: Frame, sw: Switches)
    requires |d| == 0 && Negative(d, sw).Ok?
    ensures |Negative(d, sw).value.frame| == 0
  {
    hide Pick, Drop, Sums;
    assert Impossible(d) == [];
  }

  lemma OtherPolicyKeeps(d: Frame, sw: Switches)
    requires !Documented(sw.neg)
    ensures Negative(d, sw).Ok? && Negative(d, sw).value.frame == d
  {
    hide Pick, Drop, Sums;
  }

  lemma AnomalyDescends(d: Frame, priced: Frame, sw: Switches)
    ensures Descends(d, Anomaly(d, priced, sw).frame)
  {
    hide Anomaly, RateFor, Overbilled;
    var e := Anomaly(d, priced, sw).frame;
    if sw.anomaly == "drop" {
      forall r | r in e ensures r in d { OverbilledDropped(d, priced, sw, r); }
      SubsetDescends(d, e);
    } else {
      if |d| > 0 { OverbilledRestated(d, priced, sw, 0); } else { NoAnomalies(d, priced, sw); }
      forall i | 0 <= i < |d| ensures Evolves(d[i], e[i]) { RestatedEvolves(d, priced, sw, i); }
      RowwiseDescends(d, e);
    }
  }

  lemma RestatedEvolves(d: Frame, priced: Frame, sw: Switches, i: nat)
    requires i < |d| && sw.anomaly != "drop"
    ensures |Anomaly(d, priced, sw).frame| == |d| && Evolves(d[i], Anomaly(d, priced, sw).frame[i])
  {
    hide Anomaly, RateFor;
    OverbilledRestated(d, priced, sw, i);
  }

  lemma NoAnomalies(d: Frame, priced: Frame, sw: Switches)
    requires |d| == 0
    ensures |Anomaly(d, priced, sw).frame| == 0
  {
    hide Pick, Drop, Sums;
    assert Anomalies(d, priced, sw) == [];
  }

  // Row `r` of the output is the row of the workbook it names, its labels made canonical, with
  // a token count that was there and a possible count of requests as they were.
  ghost predicate FromWorkbook(src: seq<RawRow>, dayFirst: bool, r: Row) {
    && r.source < |src|
    && var raw := src[r.source];
    && Some(r.date) == (if raw.date.Iso? then Some(raw.date.date)
                        else if dayFirst then raw.date.dayFirst else raw.date.monthFirst)
    && r.team == CanonTeam(raw.team) && r.service == CanonService(raw.service) && r.model == CanonModel(raw.model)
    && (raw.tokens.Number? ==> r.tokens == Some(raw.tokens.n))
    && (raw.requests.Number? && raw.requests.n > 0 ==> r.requests == Some(raw.requests.n))
    && (raw.cost.Number? ==> r.cost.Some?)
  }

  // Whatever the switches, what was sound in the workbook comes out as it was.
  lemma SoundMeasuresStay(src: seq<RawRow>, sw: Switches)
    requires Clean(src, sw).Ok?
    ensures forall r :: r in Clean(src, sw).value.frame ==> FromWorkbook(src, sw.dayFirst, r)
  {
    hide Measured, Negative, Anomaly, Unpriced, Clean, Descends, ParsedAll, FromWorkbook, Missing;
    CleanParts(src, sw);
    var u, m := Unpriced(src, sw).value, Measured(src, sw).value;
    var n, b := Negative(m.frame, sw).value, Billed(src, sw);
    UnpricedDescends(src, sw);
    MeasuredDescends(src, sw);
    NegativeDescends(m.frame, sw);
    AnomalyDescends(n.frame, u.frame, sw);
    var d := ParsedAll(src, sw.dayFirst).value;
    DescendsOn(d, u.frame, m.frame);
    DescendsOn(d, m.frame, n.frame);
    DescendsOn(d, n.frame, b.frame);
    SortedFrom(b.frame);
    forall r | r in Clean(src, sw).value.frame ensures FromWorkbook(src, sw.dayFirst, r) {
      assert r in b.frame;
      AncestorInWorkbook(src, sw.dayFirst, b.frame, r);
    }
  }

  lemma MeasuredDescends(src: seq<RawRow>, sw: Switches)
    requires Measured(src, sw).Ok? && Unpriced(src, sw).Ok?
    ensures Descends(Unpriced(src, sw).value.frame, Measured(src, sw).value.frame)
  {
    hide Unpriced, Missing;
    MissingDescends(Unpriced(src, sw).value.frame, sw);
  }

  lemma SortedFrom(d: Frame)
    ensures forall r :: r in Sorting.Sort(ByDate(), d) ==> r in d
  {
    ByDateIsOrder();
    Sorting.SortSorts(ByDate(), d);
    forall r | r in Sorting.Sort(ByDate(), d) ensures r in d { assert r in multiset(Sorting.Sort(ByDate(), d)); }
  }

  lemma AncestorInWorkbook(src: seq<RawRow>, dayFirst: bool, e: Frame, r: Row)
    requires ParsedAll(src, dayFirst).Ok? && Descends(ParsedAll(src, dayFirst).value, e) && r in e
    ensures FromWorkbook(src, dayFirst, r)
  {
    hide ParsedAll;
    var d := ParsedAll(src, dayFirst).value;
    var k :| 0 <= k < |e| && e[k] == r;
    assert HasAncestor(d, e[k]);
    var i :| 0 <= i < |d| && Evolves(d[i], r);
    ParsedRows(src, dayFirst);
    ParsedMeasures(i, src[i], dayFirst);
    ParsedLabels(i, src[i], dayFirst);
  }

  lemma ParsedLabels(source: nat, raw: RawRow, dayFirst: bool)
    requires Parsed(source, raw, dayFirst).Ok?
    ensures var r := Parsed(source, raw, dayFirst).value;
      && r.team == CanonTeam(raw.team) && r.service == CanonService(raw.service) && r.model == CanonModel(raw.model)
      && Some(r.date) == (if raw.date.Iso? then Some(raw.date.date)
                          else if dayFirst then raw.date.dayFirst else raw.date.monthFirst)
  {
  }
}
