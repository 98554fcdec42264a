/**
 Reciprocal-rank fusion of three arms, two of which come with the rows.
 */
module Bm25Fusion {
  import opened Bm25
  import opened Bm25Ranking
  import Sorting
  import Strings

  // A row as the hybrid search returns it; what else it carries is `payload`.
  datatype Match = Match(id: string, vectorRank: Option<nat>, lexicalRank: Option<nat>, payload: string)

  datatype Fused = Fused(source: Match, bm25Rank: Option<nat>, score: real)

  // The constant of the fusion is not negative and ranks are counted from one.
  predicate Ranks(k: nat, rank: Option<nat>) { rank.Some? ==> rank.value >= 1 }

  predicate Countable(k: nat, matches: seq<Match>, ranking: seq<Ranked>) {
    && (forall i :: 0 <= i < |matches| ==> Ranks(k, matches[i].vectorRank) && Ranks(k, matches[i].lexicalRank))
    && (forall i :: 0 <= i < |ranking| ==> ranking[i].rank >= 1)
  }

  // An arm that did not rank the row adds nothing.
  function Share(k: nat, rank: Option<nat>): real
    requires Ranks(k, rank)
  {
    if rank.None? then 0.0 else 1.0 / (k + rank.value) as real
  }

  // The last rank given to an id.
  function RankOf(ranking: seq<Ranked>, id: string): (r: Option<nat>)
    ensures (forall i :: 0 <= i < |ranking| ==> ranking[i].rank >= 1) ==> r.Some? ==> r.value >= 1
  {
    if ranking == [] then None
    else if ranking[|ranking|-1].row.id == id then Some(ranking[|ranking|-1].rank)
    else RankOf(ranking[..|ranking|-1], id)
  }

  function Enriched(k: nat, ranking: seq<Ranked>, m: Match): Fused
    requires Countable(k, [m], ranking)
  {
    var rank := RankOf(ranking, m.id);
    assert [m][0] == m;
    Fused(m, rank, Share(k, m.vectorRank) + Share(k, m.lexicalRank) + Share(k, rank))
  }

  function EnrichedAll(k: nat, ranking: seq<Ranked>, matches: seq<Match>): (r: seq<Fused>)
    requires Countable(k, matches, ranking)
    ensures |r| == |matches|
    ensures forall i :: 0 <= i < |r| ==> Countable(k, [matches[i]], ranking) && r[i] == Enriched(k, ranking, matches[i])
  {
    if matches == [] then []
    else
      assert Countable(k, [matches[|matches|-1]], ranking);
      EnrichedAll(k, ranking, matches[..|matches|-1]) + [Enriched(k, ranking, matches[|matches|-1])]
  }

  // No rank is past every rank.
  predicate RankLess(a: Option<nat>, b: Option<nat>) {
    a.Some? && (b.None? || a.value < b.value)
  }

  // Higher scores first, then the vector rank, the lexical rank, the id.
  function Order(): (Fused, Fused) -> bool {
    (a: Fused, b: Fused) =>
      a.score > b.score
      || (a.score == b.score
          && (RankLess(a.source.vectorRank, b.source.vectorRank)
              || (a.source.vectorRank == b.source.vectorRank
                  && (RankLess(a.source.lexicalRank, b.source.lexicalRank)
                      || (a.source.lexicalRank == b.source.lexicalRank
                          && (a.source.id == b.source.id || Strings.Less(a.source.id, b.source.id)))))))
  }

  lemma OrderIsOrder()
    ensures Sorting.TotalPreorder(Order())
  {
    var leq := Order();
    forall x, y ensures leq(x, y) || leq(y, x) { Strings.LessTotal(x.source.id, y.source.id); }
    forall x, y, z | leq(x, y) && leq(y, z) ensures leq(x, z) {
      if Strings.Less(x.source.id, y.source.id) && Strings.Less(y.source.id, z.source.id) {
        Strings.LessTransitive(x.source.id, y.source.id, z.source.id);
      }
    }
  }

  function Fuse(k: nat, matches: seq<Match>, ranking: seq<Ranked>): seq<Fused>
    requires Countable(k, matches, ranking)
  {
    Sorting.Sort(Order(), EnrichedAll(k, ranking, matches))
  }

  lemma {:induction false} RankOfIff(ranking: seq<Ranked>, id: string)
    ensures RankOf(ranking, id).Some? <==> exists i :: 0 <= i < |ranking| && ranking[i].row.id == id
  {
    if ranking != [] {
      var init := ranking[..|ranking|-1];
      RankOfIff(init, id);
      assert forall i :: 0 <= i < |init| ==> init[i] == ranking[i];
    }
  }

  lemma EnrichedFacts(k: nat, ranking: seq<Ranked>, matches: seq<Match>, i: nat)
    requires Countable(k, matches, ranking) && i < |matches|
    ensures var r := EnrichedAll(k, ranking, matches)[i];
      && r.source == matches[i] && r.bm25Rank == RankOf(ranking, matches[i].id)
      && Countable(k, [matches[i]], ranking) && r == Enriched(k, ranking, matches[i])
  {
  }

  // Fusing adds no row, drops none and alters none: each comes back with its rank and its
  // score, in order; its rank is null exactly when the third arm did not rank it.
  lemma FuseIsPermutation(k: nat, matches: seq<Match>, ranking: seq<Ranked>)
    requires Countable(k, matches, ranking)
    ensures var r := Fuse(k, matches, ranking);
      && multiset(r) == multiset(EnrichedAll(k, ranking, matches))
      && Sorting.Ordered(Order(), r)
    ensures forall r :: r in Fuse(k, matches, ranking) ==>
      r.source in matches
      && (r.bm25Rank.None? <==> forall i :: 0 <= i < |ranking| ==> ranking[i].row.id != r.source.id)
  {
    hide Enriched, RankOf;
    OrderIsOrder();
    var all := EnrichedAll(k, ranking, matches);
    Sorting.SortSorts(Order(), all);
    forall r | r in Fuse(k, matches, ranking)
      ensures r.source in matches
      ensures r.bm25Rank.None? <==> forall i :: 0 <= i < |ranking| ==> ranking[i].row.id != r.source.id
    {
      assert r in multiset(all);
      var i :| 0 <= i < |all| && all[i] == r;
      EnrichedFacts(k, ranking, matches, i);
      RankOfIff(ranking, matches[i].id);
    }
  }

  predicate DistinctRows(matches: seq<Match>) {
    forall i, j :: 0 <= i < j < |matches| ==> matches[i].id != matches[j].id
  }

  // The result depends on the rows and not on the order they came in.
  lemma FuseForgetsOrder(k: nat, matches: seq<Match>, others: seq<Match>, ranking: seq<Ranked>)
    requires Countable(k, matches, ranking) && multiset(matches) == multiset(others) && DistinctRows(matches)
    ensures Countable(k, others, ranking) && Fuse(k, others, ranking) == Fuse(k, matches, ranking)
  {
    forall i | 0 <= i < |others| ensures Ranks(k, others[i].vectorRank) && Ranks(k, others[i].lexicalRank) {
      assert others[i] in multiset(matches);
      var j :| 0 <= j < |matches| && matches[j] == others[i];
    }
    OrderIsOrder();
    var all := EnrichedAll(k, ranking, matches);
    EnrichedPermutation(k, ranking, matches, others);
    forall x, y | x in multiset(all) && y in multiset(all) && Order()(x, y) && Order()(y, x) ensures x == y {
      TiedIsSame(k, ranking, matches, x, y);
    }
    Sorting.SortOfPermutation(Order(), all, EnrichedAll(k, ranking, others));
  }

  lemma TiedIsSame(k: nat, ranking: seq<Ranked>, matches: seq<Match>, x: Fused, y: Fused)
    requires Countable(k, matches, ranking) && DistinctRows(matches)
    requires x in EnrichedAll(k, ranking, matches) && y in EnrichedAll(k, ranking, matches)
    requires Order()(x, y) && Order()(y, x)
    ensures x == y
  {
    hide Enriched, RankOf, Order, Countable;
    var all := EnrichedAll(k, ranking, matches);
    var i :| 0 <= i < |all| && all[i] == x;
    var j :| 0 <= j < |all| && all[j] == y;
    EnrichedFacts(k, ranking, matches, i);
    EnrichedFacts(k, ranking, matches, j);
    TiedIds(x, y);
    assert i == j;
  }

  lemma TiedIds(x: Fused, y: Fused)
    requires Order()(x, y) && Order()(y, x)
    ensures x.source.id == y.source.id
  {
    if Strings.Less(x.source.id, y.source.id) { Strings.LessAsymmetric(x.source.id, y.source.id); }
  }

  lemma EnrichedWithout(k: nat, ranking: seq<Ranked>, xs: seq<Match>, i: nat)
    requires Countable(k, xs, ranking) && i < |xs|
    ensures Countable(k, Sorting.Without(xs, i), ranking)
    ensures EnrichedAll(k, ranking, Sorting.Without(xs, i)) == Sorting.Without(EnrichedAll(k, ranking, xs), i)
  {
    hide Enriched;
    var ys := Sorting.Without(xs, i);
    var a, b := EnrichedAll(k, ranking, xs), EnrichedAll(k, ranking, ys);
    forall j | 0 <= j < |ys| ensures b[j] == Sorting.Without(a, i)[j] {
      EnrichedFacts(k, ranking, xs, if j < i then j else j + 1);
      EnrichedFacts(k, ranking, ys, j);
    }
  }

  lemma {:induction false} EnrichedPermutation(k: nat, ranking: seq<Ranked>, xs: seq<Match>, ys: seq<Match>)
    requires multiset(xs) == multiset(ys) && Countable(k, xs, ranking) && Countable(k, ys, ranking)
    ensures multiset(EnrichedAll(k, ranking, xs)) == multiset(EnrichedAll(k, ranking, ys))
    decreases |xs|
  {
    hide Enriched, EnrichedAll, Sorting.Without;
    Sorting.SameLength(xs, ys);
    if xs == [] {
      assert EnrichedAll(k, ranking, xs) == EnrichedAll(k, ranking, ys);
    } else {
      var n := |xs| - 1;
      var a, b := EnrichedAll(k, ranking, xs), EnrichedAll(k, ranking, ys);
      Sorting.WithoutMultiset(xs, n);
      var i := Sorting.FindIn(ys, xs[n]);
      EnrichedWithout(k, ranking, xs, n);
      EnrichedWithout(k, ranking, ys, i);
      EnrichedPermutation(k, ranking, Sorting.Without(xs, n), Sorting.Without(ys, i));
      Sorting.WithoutMultiset(a, n);
      Sorting.WithoutMultiset(b, i);
      EnrichedFacts(k, ranking, xs, n);
      EnrichedFacts(k, ranking, ys, i);
      Sorting.PutBack(a, n, b, i);
    }
  }

  // ---------------------------------------------------------- what an arm is worth

  // Being ranked beats not being ranked, and ranked higher beats ranked lower.
  lemma HigherRankScoresMore(k: nat, a: Option<nat>, b: Option<nat>)
    requires Ranks(k, a) && Ranks(k, b) && RankLess(a, b)
    ensures Share(k, a) > Share(k, b)
  {
    var x := (k + a.value) as real;
    if b.None? {
      CrossMultiply(0.0, 1.0, 1.0, x);
    } else {
      CrossMultiply(1.0, (k + b.value) as real, 1.0, x);
    }
  }

  // Moving up in one arm, with the others as they were, moves a row up in the fusion.
  lemma MovingUpMovesUp(k: nat, v: Option<nat>, l: Option<nat>, a: Option<nat>, b: Option<nat>)
    requires Ranks(k, v) && Ranks(k, l) && Ranks(k, a) && Ranks(k, b) && RankLess(a, b)
    ensures Share(k, v) + Share(k, l) + Share(k, a) > Share(k, v) + Share(k, l) + Share(k, b)
  {
    HigherRankScoresMore(k, a, b);
  }

  // ------------------------------------------------------------------- the loops

  method FuseRows(k: nat, matches: seq<Match>, ranking: seq<Ranked>) returns (fused: seq<Fused>)
    requires Countable(k, matches, ranking)
    ensures fused == Fuse(k, matches, ranking)
  {
    hide Sorting.Sort;
    var ranks: map<string, nat> := map[];
    for i := 0 to |ranking|
      invariant forall id :: RankOf(ranking[..i], id) == if id in ranks then Some(ranks[id]) else None
    {
      assert ranking[..i+1][..i] == ranking[..i];
      ranks := ranks[ranking[i].row.id := ranking[i].rank];
    }
    assert ranking[..|ranking|] == ranking;
    var rows := [];
    for i := 0 to |matches|
      invariant Countable(k, matches[..i], ranking)
      invariant rows == EnrichedAll(k, ranking, matches[..i])
    {
      assert matches[..i+1][..i] == matches[..i];
      var m := matches[i];
      var rank := if m.id in ranks then Some(ranks[m.id]) else None;
      assert rank == RankOf(ranking, m.id);
      rows := rows + [Fused(m, rank, Share(k, m.vectorRank) + Share(k, m.lexicalRank) + Share(k, rank))];
    }
    assert matches[..|matches|] == matches;
    fused := Sorting.Sort(Order(), rows);
  }

  // --------------------------------------------------------- what a fused row shows

  lemma ShareIs(k: nat, rank: Option<nat>)
    requires Ranks(k, rank)
    ensures if rank.None? then Share(k, rank) == 0.0 else Share(k, rank) * (k + rank.value) as real == 1.0
  {
  }

  predicate DistinctRanked(ranking: seq<Ranked>) {
    forall i, j :: 0 <= i < j < |ranking| ==> ranking[i].row.id != ranking[j].row.id
  }

  lemma {:induction false} RankOfIs(ranking: seq<Ranked>, i: nat)
    requires i < |ranking| && DistinctRanked(ranking)
    ensures RankOf(ranking, ranking[i].row.id) == Some(ranking[i].rank)
  {
    if i < |ranking| - 1 {
      var init := ranking[..|ranking|-1];
      assert forall j :: 0 <= j < |init| ==> init[j] == ranking[j];
      RankOfIs(init, i);
    }
  }

  // The third arm's rank of a fused row is the one the ranking gave its id, and its score is
  // the sum of the shares of its three ranks.
  lemma FusedRowIs(k: nat, matches: seq<Match>, ranking: seq<Ranked>, r: Fused)
    requires Countable(k, matches, ranking) && DistinctRanked(ranking) && r in Fuse(k, matches, ranking)
    ensures forall i :: 0 <= i < |ranking| && ranking[i].row.id == r.source.id ==> r.bm25Rank == Some(ranking[i].rank)
    ensures Ranks(k, r.source.vectorRank) && Ranks(k, r.source.lexicalRank) && Ranks(k, r.bm25Rank)
    ensures r.score == Share(k, r.source.vectorRank) + Share(k, r.source.lexicalRank) + Share(k, r.bm25Rank)
  {
    hide Sorting.Sort, RankOf;
    OrderIsOrder();
    var all := EnrichedAll(k, ranking, matches);
    Sorting.SortSorts(Order(), all);
    assert r in multiset(all);
    var i :| 0 <= i < |all| && all[i] == r;
    EnrichedFacts(k, ranking, matches, i);
    assert [matches[i]][0] == matches[i];
    forall j | 0 <= j < |ranking| && ranking[j].row.id == r.source.id ensures r.bm25Rank == Some(ranking[j].rank) {
      RankOfIs(ranking, j);
    }
  }

  // A row without a rank stands behind every row with one.
  function Place(rank: Option<nat>): (nat, nat) { if rank.Some? then (0, rank.value) else (1, 0) }

  predicate Ahead(a: (nat, nat), b: (nat, nat)) { a.0 < b.0 || (a.0 == b.0 && a.1 < b.1) }

  // Fused rows come by score, ties by vector rank, then lexical rank, then id.
  lemma FusedInOrder(k: nat, matches: seq<Match>, ranking: seq<Ranked>, i: nat, j: nat)
    requires Countable(k, matches, ranking) && i < j < |Fuse(k, matches, ranking)|
    ensures var a, b := Fuse(k, matches, ranking)[i], Fuse(k, matches, ranking)[j];
      && a.score >= b.score
      && (a.score == b.score ==>
            !Ahead(Place(b.source.vectorRank), Place(a.source.vectorRank))
            && (a.source.vectorRank == b.source.vectorRank ==>
                  !Ahead(Place(b.source.lexicalRank), Place(a.source.lexicalRank))
                  && (a.source.lexicalRank == b.source.lexicalRank ==> !Strings.Less(b.source.id, a.source.id))))
  {
    hide Sorting.Sort;
    FuseIsPermutation(k, matches, ranking);
    var r := Fuse(k, matches, ranking);
    assert Order()(r[i], r[j]);
    if Strings.Less(r[i].source.id, r[j].source.id) { Strings.LessAsymmetric(r[i].source.id, r[j].source.id); }
  }
}
