/**
 What the ranking rewards: of two candidates that differ in one respect the better one comes
 first, and the score of a document is the formula term by term.
 */
module Bm25Order {
  import opened Bm25
  import opened Bm25Tokens
  import opened Bm25Ranking
  import opened Bm25Results
  import Sorting
  import Strings

  // ---------------------------------------------------------------- what is counted

  lemma {:induction false} CountIsMultiplicity(tokens: seq<string>, term: string)
    ensures CountOf(tokens, term) == multiset(tokens)[term]
  {
    if tokens != [] {
      CountIsMultiplicity(tokens[..|tokens|-1], term);
      assert tokens == tokens[..|tokens|-1] + [tokens[|tokens|-1]];
    }
  }

  // The candidates that contain a term.
  function Containing(cfg: Config, cs: seq<Candidate>, term: string): set<nat> {
    set i: nat | i < |cs| && term in DocTokens(cfg, cs[i])
  }

  lemma {:induction false} FrequencyIsCount(cfg: Config, cs: seq<Candidate>, term: string)
    ensures Frequency(cfg, cs, term) == |Containing(cfg, cs, term)|
  {
    hide DocTokens, Containing;
    if cs == [] {
      NoneContain(cfg, term);
    } else {
      var n, init := |cs| - 1, cs[..|cs|-1];
      FrequencyIsCount(cfg, init, term);
      CountIn(DocTokens(cfg, cs[n]), term);
      ContainingOfMore(cfg, init, cs[n], term);
      assert cs == init + [cs[n]];
    }
  }

  lemma NoneContain(cfg: Config, term: string)
    ensures Containing(cfg, [], term) == {}
  {
  }

  lemma ContainingOfMore(cfg: Config, init: seq<Candidate>, c: Candidate, term: string)
    ensures |Containing(cfg, init + [c], term)|
         == |Containing(cfg, init, term)| + if term in DocTokens(cfg, c) then 1 else 0
  {
    hide DocTokens;
    var n, cs := |init|, init + [c];
    var before := Containing(cfg, init, term);
    assert cs[n] == c && forall i :: 0 <= i < n ==> cs[i] == init[i];
    assert n !in before;
    assert Containing(cfg, cs, term) == before + (if term in DocTokens(cfg, c) then {n} else {});
  }

  // The terms of the weights that a document contains.
  function TermsIn(weights: Weights, tokens: seq<string>): set<nat> {
    set i: nat | i < |weights| && weights[i].0 in tokens
  }

  // As many terms are matched as the document contains.
  lemma {:induction false} MatchedIsCount(cfg: Config, weights: Weights, average: real, tokens: seq<string>)
    requires average > 0.0 && NormaliserOf(cfg, tokens, average) > 0.0
    ensures DocScore(cfg, weights, average, tokens).1 == |TermsIn(weights, tokens)|
    decreases |weights|
  {
    hide Contribution, NormaliserOf;
    if weights != [] {
      var n, init := |weights| - 1, weights[..|weights|-1];
      MatchedIsCount(cfg, init, average, tokens);
      CountIn(tokens, weights[n].0);
      assert forall i :: 0 <= i < n ==> init[i] == weights[i];
      assert n !in TermsIn(init, tokens);
      assert TermsIn(weights, tokens) == TermsIn(init, tokens) + (if weights[n].0 in tokens then {n} else {});
    }
  }

  // ---------------------------------------------------------------- the formula

  lemma Quotient(p: real, q: real)
    requires q != 0.0
    ensures (p / q) * q == p
  {
  }

  // What one term is worth in a document.
  function Share(weight: real, tf: nat, k1: real, n: real): real
    requires n > 0.0
  {
    if tf == 0 then 0.0 else Contribution(weight, tf as real, k1, n)
  }

  lemma {:induction false} ScoreAsShares(cfg: Config, weights: Weights, average: real, tokens: seq<string>)
    requires average > 0.0 && NormaliserOf(cfg, tokens, average) > 0.0 && weights != []
    ensures var (term, weight) := weights[|weights|-1];
      DocScore(cfg, weights, average, tokens).0
        == DocScore(cfg, weights[..|weights|-1], average, tokens).0
         + Share(weight, multiset(tokens)[term], cfg.k1, NormaliserOf(cfg, tokens, average))
  {
    CountIsMultiplicity(tokens, weights[|weights|-1].0);
  }

  // One more term adds its share: weight * tf * (k1 + 1) over tf plus k1 times the mix of one
  // and the relative length.
  lemma ScoreOfMore(cfg: Config, weights: Weights, average: real, tokens: seq<string>, term: string, weight: real)
    requires average > 0.0 && NormaliserOf(cfg, tokens, average) > 0.0
    ensures var tf := multiset(tokens)[term] as real;
      var more := DocScore(cfg, weights + [(term, weight)], average, tokens).0;
      var share := more - DocScore(cfg, weights, average, tokens).0;
      share * (tf + cfg.k1 * (1.0 - cfg.b + cfg.b * (|tokens| as real / average))) == weight * (tf * (cfg.k1 + 1.0))
  {
    hide Contribution, Normaliser;
    var more := weights + [(term, weight)];
    assert more[..|more|-1] == weights;
    var tf, n := multiset(tokens)[term], NormaliserOf(cfg, tokens, average);
    ScoreAsShares(cfg, more, average, tokens);
    ShareTimes(weight, tf, cfg.k1, n);
    NormaliserIs(cfg, tokens, average);
  }

  lemma ShareTimes(weight: real, tf: nat, k1: real, n: real)
    requires n > 0.0
    ensures Share(weight, tf, k1, n) * (tf as real + n) == weight * (tf as real * (k1 + 1.0))
  {
    if tf > 0 { Quotient(weight * (tf as real * (k1 + 1.0)), tf as real + n); }
  }

  lemma NormaliserIs(cfg: Config, tokens: seq<string>, average: real)
    requires average > 0.0
    ensures NormaliserOf(cfg, tokens, average) == cfg.k1 * (1.0 - cfg.b + cfg.b * (|tokens| as real / average))
  {
  }

  // A weight is the logarithm of the odds of not containing the term, each side smoothed by a
  // half, where that is positive.
  lemma WeightIs(ln: real -> real, documents: int, frequency: int, odds: real)
    requires 0 <= frequency <= documents && documents > 0
    requires odds * (frequency as real + 0.5) == documents as real - frequency as real + 0.5
    ensures Idf(ln, documents, frequency) == if ln(odds) > 0.0 then ln(odds) else 0.0
  {
    var top, bottom := (documents - frequency) as real + 0.5, frequency as real + 0.5;
    assert Clamp(frequency, documents) == frequency;
    SameQuotient(odds, top, bottom);
  }

  lemma SameQuotient(x: real, p: real, q: real)
    requires q > 0.0 && x * q == p
    ensures x == p / q
  {
  }

  // ------------------------------------------------------------- one document, better

  // The first document has every weighted term at least as often, ...
  ghost predicate AtLeast(weights: Weights, xs: seq<string>, ys: seq<string>) {
    forall i :: 0 <= i < |weights| ==> multiset(xs)[weights[i].0] >= multiset(ys)[weights[i].0]
  }

  // ... and one of them more often.
  ghost predicate OneMore(weights: Weights, xs: seq<string>, ys: seq<string>) {
    exists i :: 0 <= i < |weights| && multiset(xs)[weights[i].0] > multiset(ys)[weights[i].0]
  }

  ghost predicate SameCounts(weights: Weights, xs: seq<string>, ys: seq<string>) {
    forall i :: 0 <= i < |weights| ==> multiset(xs)[weights[i].0] == multiset(ys)[weights[i].0]
  }

  lemma ShareGrows(weight: real, f: nat, g: nat, k1: real, n: real)
    requires weight > 0.0 && k1 > 0.0 && n > 0.0 && f <= g
    ensures Share(weight, f, k1, n) <= Share(weight, g, k1, n)
    ensures f < g ==> Share(weight, f, k1, n) < Share(weight, g, k1, n)
  {
    hide Contribution;
    if f < g {
      if f == 0 {
        Saturates(weight, g as real, k1, n);
      } else {
        MoreOccurrencesScoreMore(weight, f as real, g as real, k1, n);
      }
    }
  }

  // Of two documents of one length the one with more of the terms scores more.
  lemma {:induction false} MoreTermsScoreMore(cfg: Config, weights: Weights, average: real,
                                              xs: seq<string>, ys: seq<string>)
    requires Sane(cfg) && Ready(cfg, average) && Positive(weights) && |xs| == |ys| && AtLeast(weights, xs, ys)
    ensures DocScore(cfg, weights, average, xs).0 >= DocScore(cfg, weights, average, ys).0
    ensures OneMore(weights, xs, ys) ==>
              DocScore(cfg, weights, average, xs).0 > DocScore(cfg, weights, average, ys).0
    decreases |weights|
  {
    hide Share, DocScore;
    if |weights| == 0 {
      NoScore(cfg, weights, average, xs);
      NoScore(cfg, weights, average, ys);
    } else {
      var init, last := weights[..|weights|-1], weights[|weights|-1];
      assert forall i :: 0 <= i < |init| ==> init[i] == weights[i];
      MoreTermsScoreMore(cfg, init, average, xs, ys);
      ScoreAsShares(cfg, weights, average, xs);
      ScoreAsShares(cfg, weights, average, ys);
      ShareGrows(last.1, multiset(ys)[last.0], multiset(xs)[last.0], cfg.k1, NormaliserOf(cfg, xs, average));
      if OneMore(weights, xs, ys) && !OneMore(init, xs, ys) {
        var i :| 0 <= i < |weights| && multiset(xs)[weights[i].0] > multiset(ys)[weights[i].0];
        assert i == |init| by { if i < |init| { assert init[i] == weights[i]; } }
      }
    }
  }

  lemma NoScore(cfg: Config, weights: Weights, average: real, tokens: seq<string>)
    requires average > 0.0 && NormaliserOf(cfg, tokens, average) > 0.0 && |weights| == 0
    ensures DocScore(cfg, weights, average, tokens) == (0.0, 0)
  {
  }

  lemma ShareShrinks(cfg: Config, weight: real, tf: nat, average: real, xs: seq<string>, ys: seq<string>)
    requires Sane(cfg) && Ready(cfg, average) && cfg.b > 0.0 && weight > 0.0 && |xs| < |ys|
    ensures var p := Share(weight, tf, cfg.k1, NormaliserOf(cfg, xs, average));
      var q := Share(weight, tf, cfg.k1, NormaliserOf(cfg, ys, average));
      p >= q && (tf > 0 ==> p > q)
  {
    hide Contribution;
    if tf > 0 { LongerScoresLess(weight, tf as real, cfg.k1, cfg.b, |xs| as real, |ys| as real, average); }
  }

  // Of two documents that have the terms as often the shorter one scores more.
  lemma {:induction false} ShorterScoresMore(cfg: Config, weights: Weights, average: real,
                                              xs: seq<string>, ys: seq<string>)
    requires Sane(cfg) && Ready(cfg, average) && cfg.b > 0.0 && Positive(weights)
    requires |xs| < |ys| && SameCounts(weights, xs, ys)
    ensures DocScore(cfg, weights, average, xs).0 >= DocScore(cfg, weights, average, ys).0
    ensures TermsIn(weights, xs) != {} ==>
              DocScore(cfg, weights, average, xs).0 > DocScore(cfg, weights, average, ys).0
    decreases |weights|
  {
    hide Share, DocScore;
    if |weights| == 0 {
      NoScore(cfg, weights, average, xs);
      NoScore(cfg, weights, average, ys);
    } else {
      var init, last := weights[..|weights|-1], weights[|weights|-1];
      assert forall i :: 0 <= i < |init| ==> init[i] == weights[i];
      ShorterScoresMore(cfg, init, average, xs, ys);
      ScoreAsShares(cfg, weights, average, xs);
      ScoreAsShares(cfg, weights, average, ys);
      ShareShrinks(cfg, last.1, multiset(xs)[last.0], average, xs, ys);
      if i: nat :| i in TermsIn(weights, xs) && i < |init| { assert i in TermsIn(init, xs); }
    }
  }

  // ----------------------------------------------------------------- in the ranking

  // A term of the query that fewer than half of the candidates contain.
  ghost predicate Telling(cfg: Config, query: string, cs: seq<Candidate>, t: string) {
    t in Tokenise(cfg.lexer, query) && 2 * |Containing(cfg, cs, t)| < |cs|
  }

  // Both documents are as long, and the first has every telling term at least as often and one
  // more often.
  ghost predicate HasMore(cfg: Config, query: string, cs: seq<Candidate>, c: Candidate, d: Candidate) {
    var xs, ys := DocTokens(cfg, c), DocTokens(cfg, d);
    && |xs| == |ys|
    && (forall t :: Telling(cfg, query, cs, t) ==> multiset(xs)[t] >= multiset(ys)[t])
    && (exists t :: Telling(cfg, query, cs, t) && multiset(xs)[t] > multiset(ys)[t])
  }

  // Both have every telling term as often, and the first is shorter.
  ghost predicate IsShorter(cfg: Config, query: string, cs: seq<Candidate>, c: Candidate, d: Candidate) {
    var xs, ys := DocTokens(cfg, c), DocTokens(cfg, d);
    && |xs| < |ys|
    && (forall t :: Telling(cfg, query, cs, t) ==> multiset(xs)[t] == multiset(ys)[t])
    && (exists t :: Telling(cfg, query, cs, t) && t in xs)
  }

  // The weighted terms are the telling ones.
  lemma WeightsAreTelling(cfg: Config, query: string, cs: seq<Candidate>)
    requires Sane(cfg)
    ensures var weights := Discriminating(cfg, cs, Terms(Tokenise(cfg.lexer, query)));
      && Positive(weights)
      && (forall i :: 0 <= i < |weights| ==> Telling(cfg, query, cs, weights[i].0))
      && (forall t :: Telling(cfg, query, cs, t) ==> exists i :: 0 <= i < |weights| && weights[i].0 == t)
  {
    hide Discriminating, Terms;
    var terms := Terms(Tokenise(cfg.lexer, query));
    var weights := Discriminating(cfg, cs, terms);
    WeightsAreRare(cfg, cs, terms);
    TermsAre(Tokenise(cfg.lexer, query));
    forall i | 0 <= i < |weights| ensures Telling(cfg, query, cs, weights[i].0) {
      FrequencyIsCount(cfg, cs, weights[i].0);
    }
    forall t | Telling(cfg, query, cs, t) ensures exists i :: 0 <= i < |weights| && weights[i].0 == t {
      FrequencyIsCount(cfg, cs, t);
      var i :| 0 <= i < |terms| && terms[i] == t;
      var k := RareHasWeight(cfg, cs, terms, i);
    }
  }

  lemma TermsAre(tokens: seq<string>)
    ensures forall t :: t in Terms(tokens) <==> t in tokens
  {
  }

  // The score of the better document, with the weights of the ranking, is larger.
  lemma BetterScoresMore(cfg: Config, query: string, cs: seq<Candidate>, average: real, c: Candidate, d: Candidate)
    requires Sane(cfg) && Ready(cfg, average)
    requires HasMore(cfg, query, cs, c, d) || (cfg.b > 0.0 && IsShorter(cfg, query, cs, c, d))
    ensures var weights := Discriminating(cfg, cs, Terms(Tokenise(cfg.lexer, query)));
      && DocScore(cfg, weights, average, DocTokens(cfg, c)).0 > DocScore(cfg, weights, average, DocTokens(cfg, d)).0
      && DocScore(cfg, weights, average, DocTokens(cfg, c)).1 > 0
  {
    hide Discriminating, Terms, DocScore, Telling;
    var weights := Discriminating(cfg, cs, Terms(Tokenise(cfg.lexer, query)));
    var xs, ys := DocTokens(cfg, c), DocTokens(cfg, d);
    WeightsAreTelling(cfg, query, cs);
    MatchedIsCount(cfg, weights, average, xs);
    if HasMore(cfg, query, cs, c, d) {
      var t :| Telling(cfg, query, cs, t) && multiset(xs)[t] > multiset(ys)[t];
      var i :| 0 <= i < |weights| && weights[i].0 == t;
      assert t in multiset(xs);
      assert i in TermsIn(weights, xs);
      MoreTermsScoreMore(cfg, weights, average, xs, ys);
    } else {
      var t :| Telling(cfg, query, cs, t) && t in xs;
      var i :| 0 <= i < |weights| && weights[i].0 == t;
      assert i in TermsIn(weights, xs);
      ShorterScoresMore(cfg, weights, average, xs, ys);
    }
  }

  // The row at a place has the score of its candidate.
  lemma ScoreAt(cfg: Config, weights: Weights, average: real, cs: seq<Candidate>, sorted: seq<Scored>, i: nat, k: nat)
    requires Ready(cfg, average) && i < |cs| && DistinctIds(cs) && k < |sorted| && sorted[k].id == cs[i].id
    requires multiset(sorted) == multiset(Sorting.Flatten(RowOf(cfg, weights, average), cs))
    ensures (sorted[k].score, sorted[k].matched) == DocScore(cfg, weights, average, DocTokens(cfg, cs[i]))
  {
    assert sorted[k] in multiset(sorted);
    var j := Sorting.FlattenFrom(RowOf(cfg, weights, average), cs, sorted[k]);
    SameRow(cfg, weights, average, cs[j], sorted[k]);
    assert cs[i].id == cs[j].id;
  }

  // Of two candidates the better one is ranked, and before the other if that is ranked at all:
  // better is to have more of the telling terms in as many tokens, or as much in fewer.
  lemma BetterComesFirst(cfg: Config, query: string, cs: seq<Candidate>, i: nat, j: nat)
    requires Sane(cfg) && DistinctIds(cs) && i < |cs| && j < |cs|
    requires HasMore(cfg, query, cs, cs[i], cs[j]) || (cfg.b > 0.0 && IsShorter(cfg, query, cs, cs[i], cs[j]))
    ensures var ranking := Rank(cfg, query, cs).ranking;
      && InRanking(ranking, cs[i].id)
      && forall p, q :: 0 <= p < |ranking| && 0 <= q < |ranking|
                        && ranking[p].row.id == cs[i].id && ranking[q].row.id == cs[j].id ==>
           p < q && ranking[p].row.score > ranking[q].row.score
  {
    hide Rank, Discriminating, Average, Matching, DocScore, HasMore, IsShorter, DistinctIds, Sane, Ready;
    BetterIsMatching(cfg, query, cs, i, j);
    RankedIffSomeMatch(cfg, query, cs);
    RankingIsTheMatches(cfg, query, cs);
    RankedAverage(cfg, query, cs);
    var average := Average(cfg, cs);
    var weights := Discriminating(cfg, cs, Terms(Tokenise(cfg.lexer, query)));
    BetterScoresMore(cfg, query, cs, average, cs[i], cs[j]);
    var ranking := Rank(cfg, query, cs).ranking;
    assert InRanking(ranking, cs[i].id);
    forall p, q | 0 <= p < |ranking| && 0 <= q < |ranking| && ranking[p].row.id == cs[i].id
                  && ranking[q].row.id == cs[j].id
      ensures p < q && ranking[p].row.score > ranking[q].row.score
    {
      assert q < p ==> Before()(ranking[q].row, ranking[p].row);
      RankedScore(cfg, query, cs, i, p);
      RankedScore(cfg, query, cs, j, q);
    }
  }

  lemma BetterIsMatching(cfg: Config, query: string, cs: seq<Candidate>, i: nat, j: nat)
    requires i < |cs| && j < |cs|
    requires HasMore(cfg, query, cs, cs[i], cs[j]) || IsShorter(cfg, query, cs, cs[i], cs[j])
    ensures Matching(cfg, query, cs, cs[i])
  {
    var xs, ys := DocTokens(cfg, cs[i]), DocTokens(cfg, cs[j]);
    var t :| Telling(cfg, query, cs, t) && (multiset(xs)[t] > multiset(ys)[t] || t in xs);
    assert t in multiset(xs);
    CountIn(xs, t);
    FrequencyIsCount(cfg, cs, t);
    assert Contains(cfg, cs[i], t) && Rare(cfg, cs, t);
  }

  lemma RankedAverage(cfg: Config, query: string, cs: seq<Candidate>)
    requires Sane(cfg) && Rank(cfg, query, cs).reason.None?
    ensures cs != [] && Ready(cfg, Average(cfg, cs))
  {
    hide Discriminating, RowOf, Sorting.Sort, Sorting.Flatten;
    AveragePositive(cfg, cs);
    AllNormalisers(cfg, Average(cfg, cs));
  }

  // What the ranking shows of a candidate.
  lemma RankedScore(cfg: Config, query: string, cs: seq<Candidate>, i: nat, k: nat)
    requires Sane(cfg) && DistinctIds(cs) && i < |cs| && Rank(cfg, query, cs).reason.None?
    requires k < |Rank(cfg, query, cs).ranking| && Rank(cfg, query, cs).ranking[k].row.id == cs[i].id
    ensures cs != [] && Ready(cfg, Average(cfg, cs))
    ensures var row := Rank(cfg, query, cs).ranking[k].row;
      (row.score, row.matched)
        == DocScore(cfg, Discriminating(cfg, cs, Terms(Tokenise(cfg.lexer, query))), Average(cfg, cs),
                    DocTokens(cfg, cs[i]))
  {
    hide Discriminating, RowOf, Sorting.Sort, Sorting.Flatten, DocScore;
    RankedAverage(cfg, query, cs);
    var average := Average(cfg, cs);
    var weights := Discriminating(cfg, cs, Terms(Tokenise(cfg.lexer, query)));
    var rows := Sorting.Flatten(RowOf(cfg, weights, average), cs);
    var sorted := Sorting.Sort(Before(), rows);
    BeforeIsOrder();
    Sorting.SortSorts(Before(), rows);
    assert Rank(cfg, query, cs).ranking == WithRanks(sorted);
    ScoreAt(cfg, weights, average, cs, sorted, i, k);
  }

  // ----------------------------------------------------------------- what is reported

  // Rows come by score and, where that is equal, by id.
  lemma RankedInOrder(cfg: Config, query: string, cs: seq<Candidate>, p: nat, q: nat)
    requires Sane(cfg) && DistinctIds(cs) && Rank(cfg, query, cs).reason.None?
    requires p < q < |Rank(cfg, query, cs).ranking|
    ensures var a, b := Rank(cfg, query, cs).ranking[p], Rank(cfg, query, cs).ranking[q];
      && a.rank == p + 1 && b.rank == q + 1 && a.row.score >= b.row.score
      && (a.row.score == b.row.score ==> !Strings.Less(b.row.id, a.row.id))
  {
    hide Rank;
    RankingIsTheMatches(cfg, query, cs);
    var a, b := Rank(cfg, query, cs).ranking[p].row, Rank(cfg, query, cs).ranking[q].row;
    assert Before()(a, b);
    if Strings.Less(a.id, b.id) { Strings.LessAsymmetric(a.id, b.id); }
  }

  // The average length, times the candidates, is all their tokens.
  lemma AverageIs(cfg: Config, cs: seq<Candidate>)
    requires cs != []
    ensures Average(cfg, cs) * |cs| as real == AllTokens(cfg, cs) as real
  {
    hide Sorting.Sum, AllTokens, DocTokens;
    SameLengths(cfg, cs);
    Quotient(Sorting.Sum(Length(cfg), cs) as real, |cs| as real);
  }

  function AllTokens(cfg: Config, cs: seq<Candidate>): nat {
    if |cs| == 0 then 0 else AllTokens(cfg, cs[..|cs|-1]) + |DocTokens(cfg, cs[|cs|-1])|
  }

  lemma {:induction false} SameLengths(cfg: Config, cs: seq<Candidate>)
    ensures Sorting.Sum(Length(cfg), cs) == AllTokens(cfg, cs)
  {
    hide DocTokens;
    if |cs| != 0 { SameLengths(cfg, cs[..|cs|-1]); }
  }

  // The distinct tokens of the query that tell the candidates apart.
  ghost function TellingTerms(cfg: Config, query: string, cs: seq<Candidate>): set<string> {
    set t | t in Tokenise(cfg.lexer, query) && Telling(cfg, query, cs, t)
  }

  lemma {:induction false} AscendingSize(xs: seq<string>)
    requires Strings.Ascending(xs)
    ensures |(set x | x in xs)| == |xs|
  {
    if xs != [] {
      var init, last := xs[..|xs|-1], xs[|xs|-1];
      AscendingSize(init);
      assert xs == init + [last];
      forall i | 0 <= i < |init| ensures init[i] != last { Strings.LessAsymmetric(xs[i], last); }
      assert (set x | x in xs) == (set x | x in init) + {last};
    }
  }

  // A query token counts once, however often it was typed.
  lemma TermsOnce(tokens: seq<string>)
    ensures |Terms(tokens)| == |(set t | t in tokens)|
  {
    AscendingSize(Terms(tokens));
    assert (set t | t in Terms(tokens)) == (set t | t in tokens);
  }

  // The terms of the weights, in the order of the terms they come from.
  function Names(weights: Weights): seq<string> {
    seq(|weights|, i requires 0 <= i < |weights| => weights[i].0)
  }

  lemma {:induction false} NamesAscend(cfg: Config, cs: seq<Candidate>, terms: seq<string>)
    requires Strings.Ascending(terms)
    ensures Strings.Ascending(Names(Discriminating(cfg, cs, terms)))
    ensures forall x :: x in Names(Discriminating(cfg, cs, terms)) ==> x in terms
    decreases |terms|
  {
    hide Strings.Less;
    if terms != [] {
      var init, t := terms[..|terms|-1], terms[|terms|-1];
      assert terms == init + [t];
      NamesAscend(cfg, cs, init);
      var rest, all := Discriminating(cfg, cs, init), Discriminating(cfg, cs, terms);
      if all != rest {
        assert Names(all) == Names(rest) + [t];
        forall i | 0 <= i < |rest| ensures Strings.Less(Names(rest)[i], t) {
          assert Names(rest)[i] in init;
          var k :| 0 <= k < |init| && init[k] == Names(rest)[i];
          assert terms[k] == init[k];
        }
      }
    }
  }

  lemma WeightsCounted(cfg: Config, query: string, cs: seq<Candidate>)
    requires Sane(cfg)
    ensures |Discriminating(cfg, cs, Terms(Tokenise(cfg.lexer, query)))| == |TellingTerms(cfg, query, cs)|
  {
    hide Discriminating, Terms, Telling;
    var terms := Terms(Tokenise(cfg.lexer, query));
    var weights := Discriminating(cfg, cs, terms);
    TermsAscend(Tokenise(cfg.lexer, query));
    NamesAscend(cfg, cs, terms);
    AscendingSize(Names(weights));
    WeightsAreTelling(cfg, query, cs);
    forall x | x in Names(weights) ensures x in TellingTerms(cfg, query, cs) {
      var i :| 0 <= i < |weights| && Names(weights)[i] == x;
      TellingIsToken(cfg, query, cs, x);
    }
    forall x | x in TellingTerms(cfg, query, cs) ensures x in Names(weights) {
      var i :| 0 <= i < |weights| && weights[i].0 == x;
      assert Names(weights)[i] == x;
    }
    assert (set x | x in Names(weights)) == TellingTerms(cfg, query, cs);
  }

  lemma TellingIsToken(cfg: Config, query: string, cs: seq<Candidate>, t: string)
    requires Telling(cfg, query, cs, t)
    ensures t in Tokenise(cfg.lexer, query)
  {
  }

  lemma TermsAscend(tokens: seq<string>)
    ensures Strings.Ascending(Terms(tokens))
  {
  }

  // Every report says of what it is made; a refusal gives the first reason that holds.
  lemma ReportSays(cfg: Config, query: string, cs: seq<Candidate>)
    requires Sane(cfg)
    ensures var r, tokens := Rank(cfg, query, cs), Tokenise(cfg.lexer, query);
      var text := exists i :: 0 <= i < |cs| && DocTokens(cfg, cs[i]) != [];
      && r.candidates == |cs|
      && (cs != [] ==> r.terms == |(set t | t in tokens)|)
      && (cs != [] && text ==> r.discriminating == |TellingTerms(cfg, query, cs)|)
      && (r.reason == Some(EmptyCorpus) <==> cs == [])
      && (r.reason == Some(EmptyQuery) <==> cs != [] && tokens == [])
      && (r.reason == Some(NoDiscriminatingTerms) <==>
            cs != [] && tokens != [] && text && TellingTerms(cfg, query, cs) == {})
      && (r.reason.Some? <==> r.ranking == [])
  {
    hide Discriminating, RowOf, Sorting.Sort, Sorting.Flatten, Terms, Telling;
    var tokens := Tokenise(cfg.lexer, query);
    TermsOnce(tokens);
    TermsAre(tokens);
    WeightsCounted(cfg, query, cs);
    if cs != [] && Sorting.Sum(Length(cfg), cs) > 0 {
      AveragePositive(cfg, cs);
      AllNormalisers(cfg, Average(cfg, cs));
    }
    TextIff(cfg, cs);
    NoTokens(tokens);
    if tokens == [] { NoTelling(cfg, query, cs); }
  }

  lemma NoTokens(tokens: seq<string>)
    ensures Terms(tokens) == [] <==> tokens == []
  {
    if tokens != [] { assert tokens[0] in Terms(tokens); }
    if Terms(tokens) != [] { assert Terms(tokens)[0] in tokens; }
  }

  // Without tokens in the query no term tells anything.
  lemma NoTelling(cfg: Config, query: string, cs: seq<Candidate>)
    requires Tokenise(cfg.lexer, query) == []
    ensures TellingTerms(cfg, query, cs) == {}
  {
  }

  lemma {:induction false} TextIff(cfg: Config, cs: seq<Candidate>)
    ensures Sorting.Sum(Length(cfg), cs) > 0 <==> exists i :: 0 <= i < |cs| && DocTokens(cfg, cs[i]) != []
  {
    hide DocTokens;
    if i :| 0 <= i < |cs| && DocTokens(cfg, cs[i]) != [] { SomeText(cfg, cs, i); }
    if cs != [] && Sorting.Sum(Length(cfg), cs) > 0 {
      var n := |cs| - 1;
      TextIff(cfg, cs[..n]);
      if Sorting.Sum(Length(cfg), cs[..n]) > 0 {
        var i :| 0 <= i < n && DocTokens(cfg, cs[..n][i]) != [];
        assert DocTokens(cfg, cs[i]) != [];
      } else {
        assert DocTokens(cfg, cs[n]) != [];
      }
    }
  }

  // ------------------------------------------------------------------- from text to tokens

  // Tokens of one field after another, in the order of the fields; a missing field has none.
  function FieldTokens(cfg: Config, c: Candidate, n: nat): seq<string>
    requires n <= |cfg.fields|
  {
    if n == 0 then []
    else
      FieldTokens(cfg, c, n - 1)
      + Tokenise(cfg.lexer, if cfg.fields[n-1] in c.columns then c.columns[cfg.fields[n-1]] else "")
  }

  function FieldTexts(cfg: Config, c: Candidate): seq<string> {
    seq(|cfg.fields|, i requires 0 <= i < |cfg.fields| =>
      if cfg.fields[i] in c.columns then c.columns[cfg.fields[i]] else "")
  }

  lemma {:induction false} JoinedTokens(cfg: Config, c: Candidate, n: nat)
    requires cfg.lexer.fold(' ') == " " && !cfg.lexer.word(' ') && n <= |cfg.fields|
    ensures Tokenise(cfg.lexer, Joined(FieldTexts(cfg, c)[..n])) == FieldTokens(cfg, c, n)
  {
    hide Tokenise;
    var parts := FieldTexts(cfg, c)[..n];
    if n == 0 {
      NoText(cfg.lexer);
      assert parts == [];
    } else {
      assert parts[..n-1] == FieldTexts(cfg, c)[..n-1];
      JoinedTokens(cfg, c, n - 1);
      if n == 1 {
        NoText(cfg.lexer);
        assert Joined(parts) == parts[0] && Joined(parts[..0]) == "";
        assert [] + Tokenise(cfg.lexer, parts[0]) == Tokenise(cfg.lexer, parts[0]);
      } else {
        TokensApart(cfg.lexer, Joined(parts[..n-1]), parts[n-1]);
        assert Joined(parts) == Joined(parts[..n-1]) + " " + parts[n-1];
      }
    }
  }

  // A document's tokens are those of its fields, one after the other.
  lemma DocTokensAreFields(cfg: Config, c: Candidate)
    requires cfg.lexer.fold(' ') == " " && !cfg.lexer.word(' ')
    ensures DocTokens(cfg, c) == FieldTokens(cfg, c, |cfg.fields|)
  {
    var texts := FieldTexts(cfg, c);
    JoinedTokens(cfg, c, |cfg.fields|);
    assert texts[..|cfg.fields|] == texts;
    assert DocumentText(cfg, c) == Joined(texts);
  }
}
