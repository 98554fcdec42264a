/**
 The escalations table row by row: an id names one row, and what was written into it
 first stands.
 */
module LedgerRows {
  import opened LedgerModel
  import opened LedgerConditions

  ghost predicate IdsAscend(es: seq<Escalation>) {
    forall i, j :: 0 <= i < j < |es| ==> es[i].id < es[j].id
  }

  lemma {:induction false} NextIdIsNew(es: seq<Escalation>)
    ensures forall i :: 0 <= i < |es| ==> es[i].id < NextId(es)
  {
    if es != [] {
      NextIdIsNew(es[..|es|-1]);
      assert forall i :: 0 <= i < |es| - 1 ==> es[..|es|-1][i] == es[i];
    }
  }

  // `r` is `e` later on: nothing that was written into it has been overwritten.
  predicate Follows(e: Escalation, r: Escalation) {
    && r.id == e.id && r.rule == e.rule && r.provider == e.provider && r.openedAt == e.openedAt
    && r.count == e.count && r.evaluated == e.evaluated
    && (e.resolvedAt.Some? ==> r.resolvedAt == e.resolvedAt)
    && (e.takenBy.Some? ==> r.takenBy == e.takenBy)
  }

  // Every row of `after` that carries the id of a row of `before` follows it.
  ghost predicate Kept(before: seq<Escalation>, after: seq<Escalation>) {
    forall i, j :: 0 <= i < |before| && 0 <= j < |after| && before[i].id == after[j].id ==> Follows(before[i], after[j])
  }

  // ... and ids that are not among them are new.
  ghost predicate Extends(before: seq<Escalation>, after: seq<Escalation>) {
    && IdsAscend(after) && Kept(before, after)
    && forall j :: 0 <= j < |after| ==> Descends(before, after[j])
  }

  ghost predicate HasId(es: seq<Escalation>, id: nat) {
    exists j :: 0 <= j < |es| && es[j].id == id
  }

  ghost predicate Descends(before: seq<Escalation>, r: Escalation) {
    (exists i :: 0 <= i < |before| && before[i].id == r.id) || (forall i :: 0 <= i < |before| ==> before[i].id < r.id)
  }

  lemma Reflexive(es: seq<Escalation>)
    requires IdsAscend(es)
    ensures Extends(es, es)
  {
  }

  lemma Transitive(a: seq<Escalation>, b: seq<Escalation>, c: seq<Escalation>)
    requires Extends(a, b) && Extends(b, c)
    requires forall i :: 0 <= i < |a| ==> HasId(b, a[i].id)
    ensures Extends(a, c)
  {
    forall i, j | 0 <= i < |a| && 0 <= j < |c| && a[i].id == c[j].id ensures Follows(a[i], c[j]) {
      assert HasId(b, a[i].id);
      var k :| 0 <= k < |b| && b[k].id == a[i].id;
    }
    forall j | 0 <= j < |c| ensures Descends(a, c[j]) {
      assert Descends(b, c[j]);
      if k :| 0 <= k < |b| && b[k].id == c[j].id {
        assert Descends(a, b[k]);
      } else {
        forall i | 0 <= i < |a| ensures a[i].id < c[j].id {
          assert HasId(b, a[i].id);
          var k :| 0 <= k < |b| && b[k].id == a[i].id;
        }
      }
    }
  }

  lemma AppendExtends(es: seq<Escalation>, e: Escalation)
    requires IdsAscend(es) && e.id == NextId(es)
    ensures Extends(es, es + [e])
  {
    NextIdIsNew(es);
  }

  // The same rows first, and new ones after them.
  ghost predicate Grows(a: seq<Escalation>, b: seq<Escalation>) { a <= b && Extends(a, b) }

  lemma GrowsOn(a: seq<Escalation>, b: seq<Escalation>, c: seq<Escalation>)
    requires Grows(a, b) && Grows(b, c)
    ensures Grows(a, c)
  {
    forall i | 0 <= i < |a| ensures HasId(b, a[i].id) {
      assert b[i] == a[i];
    }
    Transitive(a, b, c);
  }

  lemma {:induction false} EvaluateGrows(s: State, ps: seq<string>, now: real)
    requires s.cfg.minSamples >= 1 && IdsAscend(s.escalations)
    ensures Grows(s.escalations, Evaluate(s, ps, now).escalations)
    decreases |ps|
  {
    hide Grows, TestRule;
    if ps == [] {
      NothingGrows(s.escalations);
    } else {
      EvaluateGrows(s, ps[..|ps|-1], now);
      var a, p := Evaluate(s, ps[..|ps|-1], now), ps[|ps|-1];
      var b := TestRule(a, FatalBurst, p, now);
      GrownAscend(s.escalations, a.escalations);
      TestGrows(a, FatalBurst, p, now);
      GrownAscend(a.escalations, b.escalations);
      TestGrows(b, FailRate, p, now);
      GrowsOn(s.escalations, a.escalations, b.escalations);
      GrowsOn(s.escalations, b.escalations, TestRule(b, FailRate, p, now).escalations);
    }
  }

  lemma NothingGrows(es: seq<Escalation>)
    requires IdsAscend(es)
    ensures Grows(es, es)
  {
    Reflexive(es);
  }

  lemma GrownAscend(a: seq<Escalation>, b: seq<Escalation>)
    requires Grows(a, b)
    ensures IdsAscend(b)
  {
  }

  lemma TestGrows(s: State, rule: Rule, provider: string, now: real)
    requires s.cfg.minSamples >= 1 && IdsAscend(s.escalations)
    ensures Grows(s.escalations, TestRule(s, rule, provider, now).escalations)
  {
    hide Extends, Holds, WithinCooldown;
    var es, es' := s.escalations, TestRule(s, rule, provider, now).escalations;
    Reflexive(es);
    if es' != es {
      AppendExtends(es, es'[|es|]);
      assert es' == es + [es'[|es|]];
    }
  }

  ghost predicate FollowsEach(a: seq<Escalation>, b: seq<Escalation>) {
    |a| == |b| && forall i :: 0 <= i < |a| ==> Follows(a[i], b[i])
  }

  lemma FollowsIds(a: seq<Escalation>, b: seq<Escalation>)
    requires IdsAscend(a) && FollowsEach(a, b)
    ensures IdsAscend(b)
    ensures forall j :: 0 <= j < |b| ==> b[j].id == a[j].id
  {
    forall j | 0 <= j < |b| ensures b[j].id == a[j].id { assert Follows(a[j], b[j]); }
  }

  // A rewrite that follows each row where it stands.
  lemma RewriteExtends(a: seq<Escalation>, b: seq<Escalation>)
    requires IdsAscend(a) && FollowsEach(a, b)
    ensures Extends(a, b)
  {
    hide Follows;
    FollowsIds(a, b);
    forall i, j | 0 <= i < |a| && 0 <= j < |b| && a[i].id == b[j].id ensures Follows(a[i], b[j]) {
      assert i == j;
    }
    forall j | 0 <= j < |b| ensures Descends(a, b[j]) {
      assert a[j].id == b[j].id;
    }
  }

  lemma {:induction false} PruneOrdered(es: seq<Escalation>, cutoff: real, bound: nat)
    requires IdsAscend(es) && forall i :: 0 <= i < |es| ==> es[i].id < bound
    ensures IdsAscend(KeepEscalations(es, cutoff))
    ensures forall i :: 0 <= i < |KeepEscalations(es, cutoff)| ==> KeepEscalations(es, cutoff)[i].id < bound
  {
    if es != [] {
      PruneOrdered(es[..|es|-1], cutoff, es[|es|-1].id);
    }
  }

  lemma PruneExtends(es: seq<Escalation>, cutoff: real)
    requires IdsAscend(es)
    ensures Extends(es, KeepEscalations(es, cutoff))
  {
    NextIdIsNew(es);
    PruneOrdered(es, cutoff, NextId(es));
    KeptRows(es, cutoff);
    var r := KeepEscalations(es, cutoff);
    forall j | 0 <= j < |r| ensures Descends(es, r[j]) {
      assert r[j] in es;
    }
    forall i, j | 0 <= i < |es| && 0 <= j < |r| && es[i].id == r[j].id ensures Follows(es[i], r[j]) {
      assert r[j] in es;
    }
  }

  lemma {:induction false} AcknowledgedFollows(es: seq<Escalation>, id: nat, actor: string)
    ensures var r := Acknowledged(es, id, actor); |r| == |es| && forall i :: 0 <= i < |es| ==> Follows(es[i], r[i])
  {
    if es != [] {
      AcknowledgedFollows(es[..|es|-1], id, actor);
    }
  }

  lemma RewriteThenPrune(a: seq<Escalation>, b: seq<Escalation>, c: seq<Escalation>, cutoff: real)
    requires IdsAscend(b) && Grows(a, b) && FollowsEach(b, c)
    ensures Extends(a, c) && Extends(a, KeepEscalations(c, cutoff))
  {
    RewriteExtends(b, c);
    forall i | 0 <= i < |a| ensures HasId(b, a[i].id) && HasId(c, a[i].id) {
      assert b[i] == a[i] && Follows(b[i], c[i]);
    }
    Transitive(a, b, c);
    PruneExtends(c, cutoff);
    Transitive(a, c, KeepEscalations(c, cutoff));
  }

  lemma IngestExtends(s: State, batch: seq<Finding>, now: real)
    requires s.cfg.minSamples >= 1 && IdsAscend(s.escalations)
    ensures Extends(s.escalations, Ingested(s, batch, now).escalations)
  {
    hide Extends, Grows, Evaluate, Holds, StatsOf;
    var stored := Stored(s, batch, now);
    var ps := Providers(Admitted(s.cfg, batch, now));
    EvaluateGrows(stored, ps, now);
    GrownAscend(stored.escalations, Evaluate(stored, ps, now).escalations);
    RewriteThenPrune(s.escalations, Evaluate(stored, ps, now).escalations, Judged(s, batch, now).escalations,
                     now - s.cfg.retention);
  }

  // No call reuses the id of a row that is in the table, resolves a resolved escalation
  // again, or puts a second name against one that has been taken.
  lemma NextKeepsRows(s: State, e: Event)
    requires s.cfg.minSamples >= 1 && IdsAscend(s.escalations)
    ensures IdsAscend(Next(s, e).escalations) && Kept(s.escalations, Next(s, e).escalations)
  {
    match e
    case Ingest(batch, now) => IngestExtends(s, batch, now);
    case Sweep(now) => RewriteExtends(s.escalations, Swept(s, now).escalations);
    case Prune(now) => PruneExtends(s.escalations, now - s.cfg.retention);
    case Acknowledge(id, actor, now) =>
      AcknowledgedFollows(s.escalations, id, actor);
      RewriteExtends(s.escalations, Acknowledged(s.escalations, id, actor));
  }

  lemma {:induction false} RunKeepsIds(cfg: Config, es: seq<Event>)
    requires cfg.minSamples >= 1
    ensures IdsAscend(Run(Init(cfg), es).escalations)
    decreases |es|
  {
    hide Next;
    if es != [] {
      RunKeepsIds(cfg, es[..|es|-1]);
      NextKeepsRows(Run(Init(cfg), es[..|es|-1]), es[|es|-1]);
    }
  }

  // ---------------------------------------------------------------- ids over a run

  function Ids(es: seq<Escalation>): seq<nat> {
    if es == [] then [] else Ids(es[..|es|-1]) + [es[|es|-1].id]
  }

  // The ids given to rows over a run, in the order they were given.
  function Issued(cfg: Config, es: seq<Event>): seq<nat>
    requires cfg.minSamples >= 1
    decreases |es|
  {
    if es == [] then []
    else
      var s, e := Run(Init(cfg), es[..|es|-1]), es[|es|-1];
      Issued(cfg, es[..|es|-1]) + (if e.Ingest? then Ids(Opened(s, e.batch, e.now)) else [])
  }

  function Top(ids: seq<nat>): nat {
    if ids == [] then 0
    else
      var t := Top(ids[..|ids|-1]);
      if ids[|ids|-1] > t then ids[|ids|-1] else t
  }

  // Every number up to the highest was given out, and no other.
  ghost predicate Contiguous(ids: seq<nat>) {
    forall n: nat :: n in ids <==> 1 <= n <= Top(ids)
  }

  // Rows carry ids that were given out.
  ghost predicate FromIssued(es: seq<Escalation>, ids: seq<nat>) {
    forall i :: 0 <= i < |es| ==> 1 <= es[i].id <= Top(ids)
  }

  lemma TopOfMore(ids: seq<nat>, n: nat)
    ensures Top(ids + [n]) == if n > Top(ids) then n else Top(ids)
  {
    assert (ids + [n])[..|ids|] == ids;
  }

  lemma {:induction false} NextIdIs(es: seq<Escalation>, n: nat)
    requires forall i :: 0 <= i < |es| ==> es[i].id < n
    ensures 1 <= NextId(es) && (n >= 1 ==> NextId(es) <= n)
    ensures NextId(es) > 1 ==> HasId(es, NextId(es) - 1)
  {
    if es != [] {
      var init := es[..|es|-1];
      assert forall i :: 0 <= i < |init| ==> init[i] == es[i];
      NextIdIs(init, n);
      if es[|es|-1].id < NextId(init) && NextId(init) > 1 {
        var j :| 0 <= j < |init| && init[j].id == NextId(init) - 1;
        assert es[j].id == NextId(es) - 1;
      }
    }
  }

  // One more row with the next id.
  lemma GivenNext(es: seq<Escalation>, ids: seq<nat>, e: Escalation)
    requires Contiguous(ids) && FromIssued(es, ids) && e.id == NextId(es)
    ensures Contiguous(ids + [e.id]) && FromIssued(es + [e], ids + [e.id])
  {
    NextIdIs(es, Top(ids) + 1);
    TopOfMore(ids, e.id);
  }

  lemma IdsOfMore(es: seq<Escalation>, e: Escalation)
    ensures Ids(es + [e]) == Ids(es) + [e.id]
  {
    assert (es + [e])[..|es|] == es;
  }

  // In the middle of an ingest: `es` has grown by the rows it opened.
  ghost predicate Accounted(base: nat, es: seq<Escalation>, ids: seq<nat>) {
    base <= |es| && Contiguous(ids + Ids(es[base..])) && FromIssued(es, ids + Ids(es[base..]))
  }

  lemma TestAccounted(s: State, rule: Rule, provider: string, now: real, base: nat, ids: seq<nat>)
    requires s.cfg.minSamples >= 1 && Accounted(base, s.escalations, ids)
    ensures Accounted(base, TestRule(s, rule, provider, now).escalations, ids)
  {
    hide Contiguous, FromIssued, Holds, WithinCooldown, StatsOf;
    var es, es' := s.escalations, TestRule(s, rule, provider, now).escalations;
    if es' != es {
      var e := es'[|es|];
      GivenNext(es, ids + Ids(es[base..]), e);
      IdsOfMore(es[base..], e);
      assert es'[base..] == es[base..] + [e];
      assert ids + Ids(es'[base..]) == (ids + Ids(es[base..])) + [e.id];
    }
  }

  lemma {:induction false} EvaluateAccounted(s: State, ps: seq<string>, now: real, base: nat, ids: seq<nat>)
    requires s.cfg.minSamples >= 1 && Accounted(base, s.escalations, ids)
    ensures Accounted(base, Evaluate(s, ps, now).escalations, ids)
    decreases |ps|
  {
    hide Accounted, TestRule;
    if ps != [] {
      EvaluateAccounted(s, ps[..|ps|-1], now, base, ids);
      var a, p := Evaluate(s, ps[..|ps|-1], now), ps[|ps|-1];
      TestAccounted(a, FatalBurst, p, now, base, ids);
      TestAccounted(TestRule(a, FatalBurst, p, now), FailRate, p, now, base, ids);
    }
  }

  // Rows that follow others, or are some of them, carry ids that were given out too.
  lemma FollowersFromIssued(a: seq<Escalation>, b: seq<Escalation>, ids: seq<nat>)
    requires FromIssued(a, ids) && forall j :: 0 <= j < |b| ==> HasId(a, b[j].id)
    ensures FromIssued(b, ids)
  {
    forall j | 0 <= j < |b| ensures 1 <= b[j].id <= Top(ids) {
      var i :| 0 <= i < |a| && a[i].id == b[j].id;
    }
  }

  lemma {:induction false} KeepsIds(es: seq<Escalation>, cutoff: real)
    ensures forall j :: 0 <= j < |KeepEscalations(es, cutoff)| ==> HasId(es, KeepEscalations(es, cutoff)[j].id)
  {
    KeptRows(es, cutoff);
    var r := KeepEscalations(es, cutoff);
    forall j | 0 <= j < |r| ensures HasId(es, r[j].id) {
      assert r[j] in es;
      var i :| 0 <= i < |es| && es[i] == r[j];
    }
  }

  lemma Renamed(a: seq<Escalation>, b: seq<Escalation>, ids: seq<nat>)
    requires FromIssued(a, ids) && |a| == |b| && forall j :: 0 <= j < |b| ==> b[j].id == a[j].id
    ensures FromIssued(b, ids)
  {
  }

  lemma IngestAccounted(s: State, batch: seq<Finding>, now: real, ids: seq<nat>)
    requires s.cfg.minSamples >= 1 && Contiguous(ids) && FromIssued(s.escalations, ids)
    ensures var more := ids + Ids(Opened(s, batch, now));
      Contiguous(more) && FromIssued(Ingested(s, batch, now).escalations, more)
  {
    hide Contiguous, FromIssued, Evaluate, Holds, StatsOf;
    var stored, base := Stored(s, batch, now), |s.escalations|;
    var ps := Providers(Admitted(s.cfg, batch, now));
    assert s.escalations[base..] == [] && ids + Ids([]) == ids;
    EvaluateAccounted(stored, ps, now, base, ids);
    var es := Evaluate(stored, ps, now).escalations;
    var more := ids + Ids(es[base..]);
    var judged := Judged(s, batch, now).escalations;
    Renamed(es, judged, more);
    KeepsIds(judged, now - s.cfg.retention);
    FollowersFromIssued(judged, KeepEscalations(judged, now - s.cfg.retention), more);
  }

  lemma NextAccounted(s: State, e: Event, ids: seq<nat>)
    requires s.cfg.minSamples >= 1 && Contiguous(ids) && FromIssued(s.escalations, ids)
    ensures var more := ids + (if e.Ingest? then Ids(Opened(s, e.batch, e.now)) else []);
      Contiguous(more) && FromIssued(Next(s, e).escalations, more)
  {
    hide Contiguous, FromIssued, Ingested, Opened;
    match e
    case Ingest(batch, now) => IngestAccounted(s, batch, now, ids);
    case Sweep(now) =>
      assert ids + [] == ids;
      Renamed(s.escalations, Swept(s, now).escalations, ids);
    case Prune(now) =>
      assert ids + [] == ids;
      KeepsIds(s.escalations, now - s.cfg.retention);
      FollowersFromIssued(s.escalations, Pruned(s, now).escalations, ids);
    case Acknowledge(id, actor, now) =>
      assert ids + [] == ids;
      AcknowledgedFollows(s.escalations, id, actor);
      Renamed(s.escalations, Acknowledged(s.escalations, id, actor), ids);
  }

  lemma {:induction false} RunAccounted(cfg: Config, es: seq<Event>)
    requires cfg.minSamples >= 1
    ensures Contiguous(Issued(cfg, es)) && FromIssued(Run(Init(cfg), es).escalations, Issued(cfg, es))
    decreases |es|
  {
    hide Next, Contiguous, FromIssued, Opened;
    if es == [] {
      NoneIssued();
    } else {
      RunAccounted(cfg, es[..|es|-1]);
      NextAccounted(Run(Init(cfg), es[..|es|-1]), es[|es|-1], Issued(cfg, es[..|es|-1]));
    }
  }

  lemma NoneIssued()
    ensures Contiguous([]) && FromIssued([], [])
  {
  }

  // After any run, the id of the next escalation is one that was given before exactly if the
  // row with the highest id so far has been pruned: the name of an old escalation then
  // acknowledges a new one.
  lemma NextIdRepeatsIff(cfg: Config, es: seq<Event>)
    requires cfg.minSamples >= 1
    ensures var s, ids := Run(Init(cfg), es), Issued(cfg, es);
      NextId(s.escalations) in ids <==> ids != [] && !HasId(s.escalations, Top(ids))
  {
    hide Run, Issued;
    RunAccounted(cfg, es);
    var table, ids := Run(Init(cfg), es).escalations, Issued(cfg, es);
    NextIdIs(table, Top(ids) + 1);
    NextIdIsNew(table);
    if ids != [] { assert ids[0] in ids; }
    if j :| 0 <= j < |table| && table[j].id == Top(ids) { assert HasId(table, Top(ids)); }
  }
}
