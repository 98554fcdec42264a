/**
 What a report says: who is in the ranking, how high a score can be, and how few
 candidates a ranking can come from; and the loops that compute it.
 */
module Bm25Results {
  import opened Bm25
  import opened Bm25Tokens
  import opened Bm25Ranking
  import Sorting
  import Strings

  function TotalWeight(weights: Weights): real {
    if weights == [] then 0.0 else TotalWeight(weights[..|weights|-1]) + weights[|weights|-1].1
  }

  ghost predicate Positive(weights: Weights) {
    forall i :: 0 <= i < |weights| ==> weights[i].1 > 0.0
  }

  // The term is in the document.
  predicate Contains(cfg: Config, c: Candidate, term: string) {
    CountOf(DocTokens(cfg, c), term) > 0
  }

  // Fewer than half of the candidates contain the term.
  predicate Rare(cfg: Config, cs: seq<Candidate>, term: string) {
    2 * Frequency(cfg, cs, term) < |cs|
  }

  lemma {:induction false} FrequencyBounds(cfg: Config, cs: seq<Candidate>, term: string)
    ensures 0 <= Frequency(cfg, cs, term) <= |cs|
    ensures forall i :: 0 <= i < |cs| && Contains(cfg, cs[i], term) ==> Frequency(cfg, cs, term) >= 1
  {
    if cs != [] {
      var init := cs[..|cs|-1];
      FrequencyBounds(cfg, init, term);
      assert forall i :: 0 <= i < |init| ==> init[i] == cs[i];
    }
  }

  lemma {:induction false} WeightsAreRare(cfg: Config, cs: seq<Candidate>, terms: seq<string>)
    requires LogLike(cfg.ln)
    ensures Positive(Discriminating(cfg, cs, terms))
    ensures forall i :: 0 <= i < |Discriminating(cfg, cs, terms)| ==>
      Discriminating(cfg, cs, terms)[i].0 in terms && Rare(cfg, cs, Discriminating(cfg, cs, terms)[i].0)
    decreases |terms|
  {
    if terms != [] {
      WeightsAreRare(cfg, cs, terms[..|terms|-1]);
      FrequencyBounds(cfg, cs, terms[|terms|-1]);
      IdfPositiveIff(cfg.ln, |cs|, Frequency(cfg, cs, terms[|terms|-1]));
    }
  }

  lemma {:induction false} RareHasWeight(cfg: Config, cs: seq<Candidate>, terms: seq<string>, i: nat) returns (k: nat)
    requires LogLike(cfg.ln) && i < |terms| && Rare(cfg, cs, terms[i])
    ensures k < |Discriminating(cfg, cs, terms)| && Discriminating(cfg, cs, terms)[k].0 == terms[i]
    decreases |terms|
  {
    FrequencyBounds(cfg, cs, terms[|terms|-1]);
    IdfPositiveIff(cfg.ln, |cs|, Frequency(cfg, cs, terms[|terms|-1]));
    if i < |terms| - 1 {
      k := RareHasWeight(cfg, cs, terms[..|terms|-1], i);
    } else {
      k := |Discriminating(cfg, cs, terms[..|terms|-1])|;
    }
  }

  // ---------------------------------------------------------------- one document

  // The exists of a match, one weight at a time.
  ghost predicate Hits(weights: Weights, tokens: seq<string>) {
    exists i :: 0 <= i < |weights| && CountOf(tokens, weights[i].0) > 0
  }

  lemma HitsSnoc(weights: Weights, tokens: seq<string>)
    requires weights != []
    ensures Hits(weights, tokens) <==>
      Hits(weights[..|weights|-1], tokens) || CountOf(tokens, weights[|weights|-1].0) > 0
  {
    var init := weights[..|weights|-1];
    assert forall i :: 0 <= i < |init| ==> init[i] == weights[i];
  }

  // A document is matched by as many terms as it contains; none, exactly when it contains none.
  lemma {:induction false} MatchedIffHits(cfg: Config, weights: Weights, average: real, tokens: seq<string>)
    requires average > 0.0 && NormaliserOf(cfg, tokens, average) > 0.0
    ensures var (score, matched) := DocScore(cfg, weights, average, tokens);
      && (matched > 0 <==> Hits(weights, tokens)) && matched <= |weights|
      && (matched == 0 ==> score == 0.0)
    decreases |weights|
  {
    hide Contribution;
    if weights != [] {
      MatchedIffHits(cfg, weights[..|weights|-1], average, tokens);
      HitsSnoc(weights, tokens);
    }
  }

  lemma AddBelow(k: real, total: real, weight: real, score: real, part: real)
    requires score <= k * total && part < weight * k
    ensures score + part < k * (total + weight)
  {
    assert k * (total + weight) == k * total + weight * k;
  }

  // A score is never negative, is positive once a term matches, and stays below (k1 + 1)
  // times the sum of the weights.
  lemma {:induction false} ScoreBounds(cfg: Config, weights: Weights, average: real, tokens: seq<string>)
    requires Sane(cfg) && average > 0.0 && NormaliserOf(cfg, tokens, average) > 0.0 && Positive(weights)
    ensures var (score, matched) := DocScore(cfg, weights, average, tokens);
      && 0.0 <= score <= (cfg.k1 + 1.0) * TotalWeight(weights)
      && (matched > 0 ==> 0.0 < score < (cfg.k1 + 1.0) * TotalWeight(weights))
    decreases |weights|
  {
    hide Contribution, NormaliserOf;
    if weights != [] {
      var init, weight := weights[..|weights|-1], weights[|weights|-1].1;
      assert forall i :: 0 <= i < |init| ==> init[i] == weights[i];
      ScoreBounds(cfg, init, average, tokens);
      var n, f := NormaliserOf(cfg, tokens, average), CountOf(tokens, weights[|weights|-1].0);
      var k, score := cfg.k1 + 1.0, DocScore(cfg, init, average, tokens).0;
      Scaled(weight, 0.0, k);
      AddBelow(k, TotalWeight(init), weight, score, 0.0);
      if f > 0 {
        Saturates(weight, f as real, cfg.k1, n);
        AddBelow(k, TotalWeight(init), weight, score, Contribution(weight, f as real, cfg.k1, n));
      }
    }
  }

  // -------------------------------------------------------------- who is ranked

  // The candidate contains a term of the query that can tell candidates apart.
  ghost predicate Matching(cfg: Config, query: string, cs: seq<Candidate>, c: Candidate) {
    exists t :: t in Tokenise(cfg.lexer, query) && Contains(cfg, c, t) && Rare(cfg, cs, t)
  }

  ghost predicate Ready(cfg: Config, average: real) {
    average > 0.0 && forall tokens :: NormaliserOf(cfg, tokens, average) > 0.0
  }

  lemma MatchingIffScored(cfg: Config, query: string, cs: seq<Candidate>, average: real, c: Candidate)
    requires Sane(cfg) && Ready(cfg, average)
    ensures var weights := Discriminating(cfg, cs, Terms(Tokenise(cfg.lexer, query)));
      RowOf(cfg, weights, average)(c) != [] <==> Matching(cfg, query, cs, c)
  {
    var terms := Terms(Tokenise(cfg.lexer, query));
    var weights := Discriminating(cfg, cs, terms);
    WeightsAreRare(cfg, cs, terms);
    MatchedIffHits(cfg, weights, average, DocTokens(cfg, c));
    if t :| t in Tokenise(cfg.lexer, query) && Contains(cfg, c, t) && Rare(cfg, cs, t) {
      var i :| 0 <= i < |terms| && terms[i] == t;
      var k := RareHasWeight(cfg, cs, terms, i);
      assert CountOf(DocTokens(cfg, c), weights[k].0) > 0;
    }
    if k :| 0 <= k < |weights| && CountOf(DocTokens(cfg, c), weights[k].0) > 0 {
      assert weights[k].0 in terms && Contains(cfg, c, weights[k].0);
    }
  }

  // A ranking can only come from three candidates or more.
  lemma MatchingNeedsThree(cfg: Config, query: string, cs: seq<Candidate>, i: nat)
    requires i < |cs| && Matching(cfg, query, cs, cs[i])
    ensures |cs| >= 3
  {
    var t :| t in Tokenise(cfg.lexer, query) && Contains(cfg, cs[i], t) && Rare(cfg, cs, t);
    FrequencyBounds(cfg, cs, t);
  }

  lemma {:induction false} CountIn(tokens: seq<string>, term: string)
    ensures CountOf(tokens, term) > 0 <==> term in tokens
  {
    if tokens != [] {
      CountIn(tokens[..|tokens|-1], term);
      assert tokens == tokens[..|tokens|-1] + [tokens[|tokens|-1]];
    }
  }

  lemma {:induction false} SomeText(cfg: Config, cs: seq<Candidate>, i: nat)
    requires i < |cs| && DocTokens(cfg, cs[i]) != []
    ensures Sorting.Sum(Length(cfg), cs) > 0
  {
    if i < |cs| - 1 {
      SomeText(cfg, cs[..|cs|-1], i);
    } else {
      TextNotNegative(cfg, cs[..|cs|-1]);
    }
  }

  lemma {:induction false} TextNotNegative(cfg: Config, cs: seq<Candidate>)
    ensures Sorting.Sum(Length(cfg), cs) >= 0
  {
    if cs != [] { TextNotNegative(cfg, cs[..|cs|-1]); }
  }

  ghost predicate SomeMatch(cfg: Config, query: string, cs: seq<Candidate>) {
    exists i :: 0 <= i < |cs| && Matching(cfg, query, cs, cs[i])
  }

  // There is a ranking exactly when some candidate contains a query term that fewer than
  // half of them contain.
  lemma RankedIffSomeMatch(cfg: Config, query: string, cs: seq<Candidate>)
    requires Sane(cfg)
    ensures Rank(cfg, query, cs).reason.None? <==> SomeMatch(cfg, query, cs)
    ensures Rank(cfg, query, cs).reason.None? ==> |cs| >= 3
  {
    hide Discriminating, RowOf, Sorting.Sort, Sorting.Flatten, Matching;
    var terms := Terms(Tokenise(cfg.lexer, query));
    if i :| 0 <= i < |cs| && Matching(cfg, query, cs, cs[i]) {
      MatchingNeedsThree(cfg, query, cs, i);
      MatchHasText(cfg, query, cs, i);
      AveragePositive(cfg, cs);
      AllNormalisers(cfg, Average(cfg, cs));
      MatchingIffScored(cfg, query, cs, Average(cfg, cs), cs[i]);
      var weights := Discriminating(cfg, cs, terms);
      var f := RowOf(cfg, weights, Average(cfg, cs));
      assert f(cs[i])[0] in f(cs[i]);
      Sorting.FlattenHas(f, cs, i);
      SomeWeight(cfg, cs, weights, Average(cfg, cs), cs[i]);
    } else if Rank(cfg, query, cs).reason.None? {
      AveragePositive(cfg, cs);
      AllNormalisers(cfg, Average(cfg, cs));
      var f := RowOf(cfg, Discriminating(cfg, cs, terms), Average(cfg, cs));
      var rows := Sorting.Flatten(f, cs);
      assert rows[0] in rows;
      var i := Sorting.FlattenFrom(f, cs, rows[0]);
      MatchingIffScored(cfg, query, cs, Average(cfg, cs), cs[i]);
      assert false;
    }
  }

  lemma SomeWeight(cfg: Config, cs: seq<Candidate>, weights: Weights, average: real, c: Candidate)
    requires Ready(cfg, average) && RowOf(cfg, weights, average)(c) != []
    ensures weights != []
  {
  }

  lemma MatchHasText(cfg: Config, query: string, cs: seq<Candidate>, i: nat)
    requires i < |cs| && Matching(cfg, query, cs, cs[i])
    ensures Sorting.Sum(Length(cfg), cs) > 0 && Terms(Tokenise(cfg.lexer, query)) != []
  {
    var t :| t in Tokenise(cfg.lexer, query) && Contains(cfg, cs[i], t) && Rare(cfg, cs, t);
    CountIn(DocTokens(cfg, cs[i]), t);
    SomeText(cfg, cs, i);
    assert t in Terms(Tokenise(cfg.lexer, query));
  }

  ghost predicate InRanking(ranking: seq<Ranked>, id: string) {
    exists k :: 0 <= k < |ranking| && ranking[k].row.id == id
  }

  // A ranking holds the matching candidates and no others, best first, numbered from one.
  lemma RankingIsTheMatches(cfg: Config, query: string, cs: seq<Candidate>)
    requires Sane(cfg) && DistinctIds(cs) && Rank(cfg, query, cs).reason.None?
    ensures var ranking := Rank(cfg, query, cs).ranking;
      && (forall i :: 0 <= i < |cs| ==> (InRanking(ranking, cs[i].id) <==> Matching(cfg, query, cs, cs[i])))
      && (forall k :: 0 <= k < |ranking| ==> ranking[k].rank == k + 1)
      && (forall j, k :: 0 <= j < k < |ranking| ==> Before()(ranking[j].row, ranking[k].row))
  {
    hide Discriminating, RowOf, Sorting.Sort, Sorting.Flatten, Matching;
    var weights := Discriminating(cfg, cs, Terms(Tokenise(cfg.lexer, query)));
    AveragePositive(cfg, cs);
    AllNormalisers(cfg, Average(cfg, cs));
    var f := RowOf(cfg, weights, Average(cfg, cs));
    var rows := Sorting.Flatten(f, cs);
    var sorted := Sorting.Sort(Before(), rows);
    BeforeIsOrder();
    Sorting.SortSorts(Before(), rows);
    var ranking := Rank(cfg, query, cs).ranking;
    assert ranking == WithRanks(sorted);
    forall i | 0 <= i < |cs| ensures InRanking(ranking, cs[i].id) <==> Matching(cfg, query, cs, cs[i]) {
      MatchingIffScored(cfg, query, cs, Average(cfg, cs), cs[i]);
      if f(cs[i]) != [] {
        RankedHas(cfg, weights, Average(cfg, cs), cs, sorted, i);
      }
      if k :| 0 <= k < |ranking| && ranking[k].row.id == cs[i].id {
        RankedFrom(cfg, weights, Average(cfg, cs), cs, sorted, i, k);
      }
    }
  }

  lemma RankedHas(cfg: Config, weights: Weights, average: real, cs: seq<Candidate>, sorted: seq<Scored>, i: nat)
    requires Ready(cfg, average) && i < |cs| && RowOf(cfg, weights, average)(cs[i]) != []
    requires multiset(sorted) == multiset(Sorting.Flatten(RowOf(cfg, weights, average), cs))
    ensures InRanking(WithRanks(sorted), cs[i].id)
  {
    var f := RowOf(cfg, weights, average);
    var x := f(cs[i])[0];
    assert x in f(cs[i]);
    Sorting.FlattenHas(f, cs, i);
    assert x in multiset(sorted);
    var k :| 0 <= k < |sorted| && sorted[k] == x;
    assert WithRanks(sorted)[k].row.id == cs[i].id;
  }

  lemma RankedFrom(cfg: Config, weights: Weights, average: real, cs: seq<Candidate>, sorted: seq<Scored>, i: nat,
      k: nat)
    requires Ready(cfg, average) && i < |cs| && DistinctIds(cs) && k < |sorted| && sorted[k].id == cs[i].id
    requires multiset(sorted) == multiset(Sorting.Flatten(RowOf(cfg, weights, average), cs))
    ensures RowOf(cfg, weights, average)(cs[i]) != []
  {
    assert sorted[k] in multiset(sorted);
    var j := Sorting.FlattenFrom(RowOf(cfg, weights, average), cs, sorted[k]);
    SameRow(cfg, weights, average, cs[j], sorted[k]);
    assert cs[i].id == cs[j].id;
  }

  // ------------------------------------------------------------------- the loops

  method DocumentScore(cfg: Config, weights: Weights, average: real, tokens: seq<string>)
      returns (total: real, matched: nat)
    requires average > 0.0 && NormaliserOf(cfg, tokens, average) > 0.0
    ensures (total, matched) == DocScore(cfg, weights, average, tokens)
  {
    hide Contribution;
    var normaliser := NormaliserOf(cfg, tokens, average);
    total, matched := 0.0, 0;
    for i := 0 to |weights|
      invariant (total, matched) == DocScore(cfg, weights[..i], average, tokens)
    {
      assert weights[..i+1][..i] == weights[..i];
      var (term, weight) := weights[i];
      var frequency := CountOf(tokens, term);
      if frequency == 0 {
        continue;
      }
      matched := matched + 1;
      total := total + Contribution(weight, frequency as real, cfg.k1, normaliser);
    }
    assert weights[..|weights|] == weights;
  }

  // Scored rows, in the order of the candidates.
  method ScoreCandidates(cfg: Config, weights: Weights, average: real, cs: seq<Candidate>) returns (rows: seq<Scored>)
    requires Ready(cfg, average)
    ensures rows == Sorting.Flatten(RowOf(cfg, weights, average), cs)
  {
    rows := [];
    for i := 0 to |cs|
      invariant rows == Sorting.Flatten(RowOf(cfg, weights, average), cs[..i])
    {
      assert cs[..i+1][..i] == cs[..i];
      var score, matched := DocumentScore(cfg, weights, average, DocTokens(cfg, cs[i]));
      if matched > 0 {
        rows := rows + [Scored(cs[i].id, score, matched)];
      }
    }
    assert cs[..|cs|] == cs;
  }

  method RankCandidates(cfg: Config, query: string, cs: seq<Candidate>) returns (report: Report)
    requires Sane(cfg)
    ensures report == Rank(cfg, query, cs)
  {
    hide Discriminating, RowOf, Sorting.Sort, Sorting.Flatten;
    var terms := Terms(Tokenise(cfg.lexer, query));
    if cs == [] {
      return Unavailable(EmptyCorpus, 0, 0, 0);
    } else if terms == [] {
      return Unavailable(EmptyQuery, |cs|, 0, 0);
    } else if Sorting.Sum(Length(cfg), cs) <= 0 {
      return Unavailable(NoMatchingDocuments, |cs|, |terms|, 0);
    }
    var weights := Discriminating(cfg, cs, terms);
    if weights == [] {
      return Unavailable(NoDiscriminatingTerms, |cs|, |terms|, 0);
    }
    AveragePositive(cfg, cs);
    AllNormalisers(cfg, Average(cfg, cs));
    var rows := ScoreCandidates(cfg, weights, Average(cfg, cs), cs);
    if rows == [] {
      return Unavailable(NoMatchingDocuments, |cs|, |terms|, |weights|);
    }
    var sorted := Sorting.Sort(Before(), rows);
    var ranking := [];
    for position := 0 to |sorted|
      invariant ranking == WithRanks(sorted[..position])
    {
      assert sorted[..position+1][..position] == sorted[..position];
      ranking := ranking + [Ranked(sorted[position], position + 1)];
    }
    assert sorted[..|sorted|] == sorted;
    report := Report(None, ranking, |cs|, |terms|, |weights|);
  }
}
