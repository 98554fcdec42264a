/**
 Ranking a set of candidates: who is scored, in what order, and why the order the rows
 came in does not matter.
 */
module Bm25Ranking {
  import opened Bm25
  import opened Bm25Tokens
  import Sorting
  import Strings

  datatype Option<T> = None | Some(value: T)

  datatype Candidate = Candidate(id: string, columns: map<string, string>)

  datatype Config = Config(lexer: Lexer, ln: real -> real, k1: real, b: real, fields: seq<string>)

  // The parameters with which the formula is the one the module documents.
  ghost predicate Sane(cfg: Config) {
    LogLike(cfg.ln) && cfg.k1 > 0.0 && 0.0 <= cfg.b < 1.0
  }

  function Joined(parts: seq<string>): string {
    if parts == [] then ""
    else if |parts| == 1 then parts[0]
    else Joined(parts[..|parts|-1]) + " " + parts[|parts|-1]
  }

  // A missing field contributes nothing but its separator.
  function DocumentText(cfg: Config, c: Candidate): string {
    Joined(seq(|cfg.fields|, i requires 0 <= i < |cfg.fields| =>
      if cfg.fields[i] in c.columns then c.columns[cfg.fields[i]] else ""))
  }

  function DocTokens(cfg: Config, c: Candidate): seq<string> {
    Tokenise(cfg.lexer, DocumentText(cfg, c))
  }

  function CountOf(tokens: seq<string>, term: string): nat {
    if tokens == [] then 0 else CountOf(tokens[..|tokens|-1], term) + (if tokens[|tokens|-1] == term then 1 else 0)
  }

  // The distinct terms of the query, in order.
  function Terms(tokens: seq<string>): (r: seq<string>)
    ensures Strings.Ascending(r)
    ensures forall t :: t in r <==> t in tokens
  {
    if tokens == [] then []
    else
      assert tokens == tokens[..|tokens|-1] + [tokens[|tokens|-1]];
      Strings.Insert(tokens[|tokens|-1], Terms(tokens[..|tokens|-1]))
  }

  function Has(cfg: Config, term: string): Candidate -> int {
    c => if CountOf(DocTokens(cfg, c), term) > 0 then 1 else 0
  }

  function Length(cfg: Config): Candidate -> int {
    c => |DocTokens(cfg, c)|
  }

  function Frequency(cfg: Config, cs: seq<Candidate>, term: string): int {
    Sorting.Sum(Has(cfg, term), cs)
  }

  type Weights = seq<(string, real)>

  // The terms that can tell the candidates apart, each with its weight.
  function Discriminating(cfg: Config, cs: seq<Candidate>, terms: seq<string>): Weights {
    if terms == [] then []
    else
      var rest := Discriminating(cfg, cs, terms[..|terms|-1]);
      var t := terms[|terms|-1];
      var w := Idf(cfg.ln, |cs|, Frequency(cfg, cs, t));
      if w > IDF_FLOOR then rest + [(t, w)] else rest
  }

  function NormaliserOf(cfg: Config, tokens: seq<string>, average: real): real
    requires average > 0.0
  {
    Normaliser(cfg.k1, cfg.b, |tokens| as real, average)
  }

  lemma NormaliserOk(cfg: Config, tokens: seq<string>, average: real)
    requires Sane(cfg) && average > 0.0
    ensures NormaliserOf(cfg, tokens, average) > 0.0
  {
    NormaliserPositive(cfg.k1, cfg.b, |tokens| as real, average);
  }

  // The score of a document and how many of the terms it contains.
  function DocScore(cfg: Config, weights: Weights, average: real, tokens: seq<string>): (real, nat)
    requires average > 0.0 && NormaliserOf(cfg, tokens, average) > 0.0
    decreases |weights|
  {
    if weights == [] then (0.0, 0)
    else
      var (score, matched) := DocScore(cfg, weights[..|weights|-1], average, tokens);
      var (term, weight) := weights[|weights|-1];
      var f := CountOf(tokens, term);
      if f == 0 then (score, matched)
      else (score + Contribution(weight, f as real, cfg.k1, NormaliserOf(cfg, tokens, average)), matched + 1)
  }

  datatype Scored = Scored(id: string, score: real, matched: nat)

  // A document that matches none of the terms is left out.
  function RowOf(cfg: Config, weights: Weights, average: real): Candidate -> seq<Scored>
    requires average > 0.0
    requires forall tokens :: NormaliserOf(cfg, tokens, average) > 0.0
  {
    c =>
      var (score, matched) := DocScore(cfg, weights, average, DocTokens(cfg, c));
      if matched > 0 then [Scored(c.id, score, matched)] else []
  }

  lemma AllNormalisers(cfg: Config, average: real)
    requires Sane(cfg) && average > 0.0
    ensures forall tokens :: NormaliserOf(cfg, tokens, average) > 0.0
  {
    forall tokens ensures NormaliserOf(cfg, tokens, average) > 0.0 { NormaliserOk(cfg, tokens, average); }
  }

  // Higher scores first, ties by id.
  function Before(): (Scored, Scored) -> bool {
    (a: Scored, b: Scored) => a.score > b.score || (a.score == b.score && (a.id == b.id || Strings.Less(a.id, b.id)))
  }

  lemma BeforeIsOrder()
    ensures Sorting.TotalPreorder(Before())
  {
    var leq := Before();
    forall x, y ensures leq(x, y) || leq(y, x) { Strings.LessTotal(x.id, y.id); }
    forall x, y, z | leq(x, y) && leq(y, z) ensures leq(x, z) {
      if x.id != y.id && y.id != z.id && x.score == y.score == z.score { Strings.LessTransitive(x.id, y.id, z.id); }
    }
  }

  datatype Ranked = Ranked(row: Scored, rank: nat)

  function WithRanks(rows: seq<Scored>): (r: seq<Ranked>)
    ensures |r| == |rows|
    ensures forall i :: 0 <= i < |r| ==> r[i] == Ranked(rows[i], i + 1)
  {
    if rows == [] then [] else WithRanks(rows[..|rows|-1]) + [Ranked(rows[|rows|-1], |rows|)]
  }

  datatype Reason = EmptyCorpus | EmptyQuery | NoDiscriminatingTerms | NoMatchingDocuments

  datatype Report = Report(reason: Option<Reason>, ranking: seq<Ranked>, candidates: nat, terms: nat,
      discriminating: nat)

  function Unavailable(reason: Reason, candidates: nat, terms: nat, discriminating: nat): Report {
    Report(Some(reason), [], candidates, terms, discriminating)
  }

  function Average(cfg: Config, cs: seq<Candidate>): real
    requires cs != []
  {
    Sorting.Sum(Length(cfg), cs) as real / |cs| as real
  }

  lemma AveragePositive(cfg: Config, cs: seq<Candidate>)
    requires cs != [] && Sorting.Sum(Length(cfg), cs) > 0
    ensures Average(cfg, cs) > 0.0
  {
    CrossMultiply(0.0, 1.0, Sorting.Sum(Length(cfg), cs) as real, |cs| as real);
  }

  function Rank(cfg: Config, query: string, cs: seq<Candidate>): Report
    requires Sane(cfg)
  {
    var terms := Terms(Tokenise(cfg.lexer, query));
    if cs == [] then Unavailable(EmptyCorpus, 0, 0, 0)
    else if terms == [] then Unavailable(EmptyQuery, |cs|, 0, 0)
    else if Sorting.Sum(Length(cfg), cs) <= 0 then Unavailable(NoMatchingDocuments, |cs|, |terms|, 0)
    else
      var weights := Discriminating(cfg, cs, terms);
      if weights == [] then Unavailable(NoDiscriminatingTerms, |cs|, |terms|, 0)
      else
        AveragePositive(cfg, cs);
        AllNormalisers(cfg, Average(cfg, cs));
        var rows := Sorting.Flatten(RowOf(cfg, weights, Average(cfg, cs)), cs);
        if rows == [] then Unavailable(NoMatchingDocuments, |cs|, |terms|, |weights|)
        else Report(None, WithRanks(Sorting.Sort(Before(), rows)), |cs|, |terms|, |weights|)
  }

  // ---------------------------------------------------------------- permutations

  predicate DistinctIds(cs: seq<Candidate>) {
    forall i, j :: 0 <= i < j < |cs| ==> cs[i].id != cs[j].id
  }

  lemma SameFrequencies(cfg: Config, cs: seq<Candidate>, ds: seq<Candidate>, terms: seq<string>)
    requires multiset(cs) == multiset(ds)
    ensures Discriminating(cfg, cs, terms) == Discriminating(cfg, ds, terms)
    decreases |terms|
  {
    Sorting.SameLength(cs, ds);
    if terms != [] {
      SameFrequencies(cfg, cs, ds, terms[..|terms|-1]);
      Sorting.SumOfPermutation(Has(cfg, terms[|terms|-1]), cs, ds);
    }
  }

  // With distinct ids no two rows share a place in the order.
  lemma RowsAreStrict(cfg: Config, weights: Weights, average: real, cs: seq<Candidate>)
    requires Sane(cfg) && average > 0.0 && DistinctIds(cs)
    requires forall tokens :: NormaliserOf(cfg, tokens, average) > 0.0
    ensures Sorting.Strict(Before(), multiset(Sorting.Flatten(RowOf(cfg, weights, average), cs)))
  {
    var rows := Sorting.Flatten(RowOf(cfg, weights, average), cs);
    forall x, y | x in multiset(rows) && y in multiset(rows) && Before()(x, y) && Before()(y, x) ensures x == y {
      TiedIsSame(cfg, weights, average, cs, x, y);
    }
  }

  lemma TiedIsSame(cfg: Config, weights: Weights, average: real, cs: seq<Candidate>, x: Scored, y: Scored)
    requires average > 0.0 && DistinctIds(cs) && forall tokens :: NormaliserOf(cfg, tokens, average) > 0.0
    requires x in Sorting.Flatten(RowOf(cfg, weights, average), cs) &&
        y in Sorting.Flatten(RowOf(cfg, weights, average), cs)
    requires Before()(x, y) && Before()(y, x)
    ensures x == y
  {
    var i := Sorting.FlattenFrom(RowOf(cfg, weights, average), cs, x);
    var j := Sorting.FlattenFrom(RowOf(cfg, weights, average), cs, y);
    SameRow(cfg, weights, average, cs[i], x);
    SameRow(cfg, weights, average, cs[j], y);
    if Strings.Less(x.id, y.id) { Strings.LessAsymmetric(x.id, y.id); }
    assert cs[i].id == cs[j].id;
  }

  lemma SameRow(cfg: Config, weights: Weights, average: real, c: Candidate, x: Scored)
    requires average > 0.0 && forall tokens :: NormaliserOf(cfg, tokens, average) > 0.0
    requires x in RowOf(cfg, weights, average)(c)
    ensures x.id == c.id && RowOf(cfg, weights, average)(c) == [x]
    ensures x.matched > 0 && (x.score, x.matched) == DocScore(cfg, weights, average, DocTokens(cfg, c))
  {
  }

  // The report is a function of the set of candidates: the order they came in is lost.
  lemma OrderDoesNotMatter(cfg: Config, query: string, cs: seq<Candidate>, ds: seq<Candidate>)
    requires Sane(cfg) && multiset(cs) == multiset(ds) && DistinctIds(cs)
    ensures Rank(cfg, query, cs) == Rank(cfg, query, ds)
  {
    hide Discriminating, RowOf, Sorting.Sort;
    var terms := Terms(Tokenise(cfg.lexer, query));
    Sorting.SameLength(cs, ds);
    Sorting.SumOfPermutation(Length(cfg), cs, ds);
    SameFrequencies(cfg, cs, ds, terms);
    if cs != [] && Sorting.Sum(Length(cfg), cs) > 0 {
      var weights := Discriminating(cfg, cs, terms);
      AveragePositive(cfg, cs);
      AllNormalisers(cfg, Average(cfg, cs));
      var f := RowOf(cfg, weights, Average(cfg, cs));
      Sorting.FlattenOfPermutation(f, cs, ds);
      Sorting.SameLength(Sorting.Flatten(f, cs), Sorting.Flatten(f, ds));
      RowsAreStrict(cfg, weights, Average(cfg, cs), cs);
      BeforeIsOrder();
      Sorting.SortOfPermutation(Before(), Sorting.Flatten(f, cs), Sorting.Flatten(f, ds));
    }
  }
}
