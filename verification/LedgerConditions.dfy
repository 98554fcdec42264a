/**
 What an ingest leaves open is open for a reason: the test that opens, the test that
 resolves and the closing prune agree on the condition of a rule.
 */
module LedgerConditions {
  import opened LedgerModel
  import opened LedgerCooldown

  // Every unresolved escalation's own condition is true of what is stored.
  ghost predicate AllHold(s: State, now: real)
    requires s.cfg.minSamples >= 1
  {
    forall e :: e in s.escalations && e.resolvedAt.None? ==>
      Holds(s.cfg, e.rule, StatsOf(s.findings, e.provider, now - s.cfg.window))
  }

  // A prune that cuts before the window does not touch what the rules count.
  lemma {:induction false} PruneKeepsStats(table: seq<Finding>, provider: string, cutoff: real, since: real)
    requires cutoff <= since
    ensures StatsOf(KeepFindings(table, cutoff), provider, since) == StatsOf(table, provider, since)
  {
    hide StatsOf, KeepFindings;
    if table == [] {
      NothingKept(table, cutoff);
    } else {
      var init, f := table[..|table|-1], table[|table|-1];
      PruneKeepsStats(init, provider, cutoff, since);
      StatsOfSnoc(KeepFindings(init, cutoff), f, provider, since);
      StatsOfSnoc(init, f, provider, since);
      assert table == init + [f];
      KeepSnoc(table, cutoff);
    }
  }

  lemma NothingKept(table: seq<Finding>, cutoff: real)
    requires table == []
    ensures KeepFindings(table, cutoff) == table
  {
  }

  lemma KeepSnoc(table: seq<Finding>, cutoff: real)
    requires table != []
    ensures var rest, f := KeepFindings(table[..|table|-1], cutoff), table[|table|-1];
      KeepFindings(table, cutoff) == if f.observedAt < cutoff then rest else rest + [f]
  {
  }

  // One more finding counts if it is the provider's and in the window.
  lemma StatsOfSnoc(table: seq<Finding>, f: Finding, provider: string, since: real)
    ensures var s := StatsOf(table, provider, since);
      StatsOf(table + [f], provider, since) ==
        if f.provider == provider && f.observedAt >= since
        then Stats(s.evaluated + 1, s.failed + (if f.passed then 0 else 1), s.fatal + (if f.fatal > 0 then 1 else 0))
        else s
  {
    assert (table + [f])[..|table|] == table;
  }

  lemma SweptHold(s: State, now: real)
    requires s.cfg.minSamples >= 1
    ensures AllHold(Swept(s, now), now)
  {
    var r := Swept(s, now).escalations;
    forall e | e in r && e.resolvedAt.None?
      ensures Holds(s.cfg, e.rule, StatsOf(s.findings, e.provider, now - s.cfg.window))
    {
      var i :| 0 <= i < |r| && r[i] == e;
      assert r[i] == ResolveOne(s.cfg, s.findings, s.escalations[i], now);
    }
  }

  lemma PruneKeepsHold(s: State, now: real)
    requires s.cfg.minSamples >= 1 && s.cfg.window <= s.cfg.retention && AllHold(s, now)
    ensures AllHold(Pruned(s, now), now)
  {
    KeptRows(s.escalations, now - s.cfg.retention);
    forall e | e in Pruned(s, now).escalations && e.resolvedAt.None?
      ensures Holds(s.cfg, e.rule, StatsOf(Pruned(s, now).findings, e.provider, now - s.cfg.window))
    {
      PruneKeepsStats(s.findings, e.provider, now - s.cfg.retention, now - s.cfg.window);
    }
  }

  // After an ingest, whatever is still open holds.
  lemma OpenMeansHolding(s: State, batch: seq<Finding>, now: real)
    requires s.cfg.minSamples >= 1 && s.cfg.window <= s.cfg.retention
    ensures AllHold(Ingested(s, batch, now), now)
  {
    hide Evaluate;
    SweptHold(Evaluate(Stored(s, batch, now), Providers(Admitted(s.cfg, batch, now)), now), now);
    PruneKeepsHold(Judged(s, batch, now), now);
  }

  // --------------------------------------------------- what the call itself opened

  // The escalations the call returns, as it appended them to the table.
  function Opened(s: State, batch: seq<Finding>, now: real): seq<Escalation>
    requires s.cfg.minSamples >= 1
  {
    var es := Evaluate(Stored(s, batch, now), Providers(Admitted(s.cfg, batch, now)), now).escalations;
    if |s.escalations| <= |es| then es[|s.escalations|..] else []
  }

  ghost predicate OpenAndHolding(cfg: Config, findings: seq<Finding>, e: Escalation, now: real)
    requires cfg.minSamples >= 1
  {
    && e.resolvedAt.None? && e.openedAt == now
    && Holds(cfg, e.rule, StatsOf(findings, e.provider, now - cfg.window))
  }

  lemma TestAppends(s: State, rule: Rule, provider: string, now: real, n: nat)
    requires s.cfg.minSamples >= 1 && n <= |s.escalations|
    requires forall i :: n <= i < |s.escalations| ==> OpenAndHolding(s.cfg, s.findings, s.escalations[i], now)
    ensures var es := TestRule(s, rule, provider, now).escalations;
      && s.escalations <= es
      && forall i :: n <= i < |es| ==> OpenAndHolding(s.cfg, s.findings, es[i], now)
  {
  }

  lemma {:induction false} EvaluateAppends(s: State, ps: seq<string>, now: real)
    requires s.cfg.minSamples >= 1
    ensures var es := Evaluate(s, ps, now).escalations;
      && s.escalations <= es
      && forall i :: |s.escalations| <= i < |es| ==> OpenAndHolding(s.cfg, s.findings, es[i], now)
    decreases |ps|
  {
    if ps != [] {
      EvaluateAppends(s, ps[..|ps|-1], now);
      var before, p := Evaluate(s, ps[..|ps|-1], now), ps[|ps|-1];
      TestAppends(before, FatalBurst, p, now, |s.escalations|);
      TestAppends(TestRule(before, FatalBurst, p, now), FailRate, p, now, |s.escalations|);
    }
  }

  lemma SweptKeeps(s: State, now: real, i: nat)
    requires s.cfg.minSamples >= 1 && i < |s.escalations|
    requires OpenAndHolding(s.cfg, s.findings, s.escalations[i], now)
    ensures s.escalations[i] in Swept(s, now).escalations
  {
    assert Swept(s, now).escalations[i] == ResolveOne(s.cfg, s.findings, s.escalations[i], now) == s.escalations[i];
  }

  lemma ClosingPruneKeeps(s: State, batch: seq<Finding>, now: real, e: Escalation)
    requires s.cfg.minSamples >= 1 && e in Judged(s, batch, now).escalations && e.resolvedAt.None?
    ensures e in Ingested(s, batch, now).escalations
  {
    hide Judged;
    KeptRows(Judged(s, batch, now).escalations, now - s.cfg.retention);
    KeptRows(Judged(s, batch, now).escalations, now - Judged(s, batch, now).cfg.retention);
  }

  // Everything the call opened is in the table when it returns, still unresolved: the
  // resolver that runs in the same call agrees with the rule that opened it.
  lemma OpenedStaysOpen(s: State, batch: seq<Finding>, now: real)
    requires s.cfg.minSamples >= 1
    ensures forall e :: e in Opened(s, batch, now) ==>
      e.resolvedAt.None? && e.openedAt == now && e in Ingested(s, batch, now).escalations
  {
    hide Evaluate, Ingested, Swept, Holds, StatsOf;
    var ps := Providers(Admitted(s.cfg, batch, now));
    var stored := Stored(s, batch, now);
    EvaluateAppends(stored, ps, now);
    var judged := Evaluate(stored, ps, now);
    forall e | e in Opened(s, batch, now)
      ensures e.resolvedAt.None? && e.openedAt == now && e in Ingested(s, batch, now).escalations
    {
      var i :| |s.escalations| <= i < |judged.escalations| && judged.escalations[i] == e;
      SweptKeeps(judged, now, i);
      ClosingPruneKeeps(s, batch, now, e);
    }
  }

  // ----------------------------------------------- a window longer than retention

  // The times of a burst and of the empty push that forgets it while judging it.
  function BurstTime(cfg: Config): real {
    if cfg.window >= PRUNE_EVERY_MS then 0.0 else PRUNE_EVERY_MS - cfg.window / 2.0
  }

  lemma BurstLeavesOpen(s: State, t: real)
    requires Sensible(s.cfg) && Blank(s) && s.lastPrune == 0.0 && t < PRUNE_EVERY_MS
    ensures var r := Ingested(s, Burst(s.cfg.fatalCount, 0, t), t);
      && r.findings == Burst(s.cfg.fatalCount, 0, t) && r.lastPrune == 0.0
      && exists e :: e in r.escalations && e.rule == FatalBurst && e.provider == "p" && e.resolvedAt.None?
  {
    hide Burst, Admitted, InsertAll;
    var k := s.cfg.fatalCount;
    var rows := Burst(k, 0, t);
    BurstStored(s.cfg, k, 0, t, t);
    BurstProvider(k, 0, t);
    BurstStats(k, 0, t, t - s.cfg.window);
    OpenedStaysOpen(s, rows, t);
    var stored := Stored(s, rows, t);
    assert stored.findings == rows && stored.lastPrune == 0.0;
    var first := TestRule(stored, FatalBurst, "p", t);
    assert ["p"][..0] == [] && Evaluate(stored, [], t) == stored;
    assert Evaluate(stored, ["p"], t) == TestRule(first, FailRate, "p", t);
    TestAppends(first, FailRate, "p", t, 1);
    assert Opened(s, rows, t)[0] == first.escalations[0];
  }

  lemma NothingPushed(s: State, now: real)
    requires s.cfg.minSamples >= 1
    ensures Judged(s, [], now) == Swept(s, now)
  {
    assert InsertAll(s.findings, []) == (s.findings, []);
    assert s.accepted + [] == s.accepted;
    assert Stored(s, [], now) == s;
  }

  lemma PrunedAway(s: State, now: real, e: Escalation)
    requires s.cfg.minSamples >= 1 && s.cfg.fatalCount >= 1
    requires forall f :: f in s.findings ==> f.observedAt < now - s.cfg.retention
    requires e in s.escalations && e.rule == FatalBurst && e.resolvedAt.None?
    ensures !AllHold(Pruned(s, now), now)
  {
    KeepNone(s.findings, [], now - s.cfg.retention);
    KeptRows(s.escalations, now - s.cfg.retention);
    assert e in Pruned(s, now).escalations && Pruned(s, now).findings == [];
    assert StatsOf([], e.provider, now - s.cfg.window) == Stats(0, 0, 0);
  }

  lemma ForgetsWhileJudging(s: State, t: real, later: real, e: Escalation)
    requires Sensible(s.cfg) && later - t == s.cfg.window > s.cfg.retention
    requires later - s.lastPrune >= PRUNE_EVERY_MS && s.findings == Burst(s.cfg.fatalCount, 0, t)
    requires e in s.escalations && e.rule == FatalBurst && e.provider == "p" && e.resolvedAt.None?
    ensures !AllHold(Ingested(s, [], later), later)
  {
    var k := s.cfg.fatalCount;
    BurstStats(k, 0, t, later - s.cfg.window);
    BurstRows(k, 0, t);
    NothingPushed(s, later);
    var i :| 0 <= i < |s.escalations| && s.escalations[i] == e;
    assert Swept(s, later).escalations[i] == ResolveOne(s.cfg, s.findings, e, later) == e;
    PrunedAway(Swept(s, later), later, e);
  }

  lemma WindowPastRetentionFails(cfg: Config) returns (es: seq<Event>)
    requires Sensible(cfg) && cfg.window > cfg.retention
    ensures Timed(es) && |es| == 2 && es[1].Ingest? && !AllHold(Run(Init(cfg), es), es[1].now)
  {
    hide Ingested, Burst;
    var t := BurstTime(cfg);
    var b := Burst(cfg.fatalCount, 0, t);
    es := [Ingest(b, t), Ingest([], t + cfg.window)];
    BurstLeavesOpen(Init(cfg), t);
    var s1 := Ingested(Init(cfg), b, t);
    assert Run(Init(cfg), es[..1]) == s1 by {
      assert es[..0] == [];
      RunStep(Init(cfg), es, 0);
    }
    assert s1.cfg == cfg by { assert Next(Init(cfg), es[0]) == s1; }
    assert Run(Init(cfg), es) == Ingested(s1, [], t + cfg.window) by {
      RunStep(Init(cfg), es, 1);
      assert es[..2] == es;
    }
    var e :| e in s1.escalations && e.rule == FatalBurst && e.provider == "p" && e.resolvedAt.None?;
    ForgetsWhileJudging(s1, t, t + cfg.window, e);
  }

  // Whenever a run ends with an ingest, every open escalation's condition holds.
  ghost predicate LeavesOnlyHolding(cfg: Config)
    requires Sensible(cfg)
  {
    forall es: seq<Event> :: Timed(es) && es != [] && es[|es|-1].Ingest? ==>
      AllHold(Run(Init(cfg), es), es[|es|-1].now)
  }

  // Exactly which configurations leave only conditions that hold.
  lemma OpenMeansHoldingIff(cfg: Config)
    requires Sensible(cfg)
    ensures LeavesOnlyHolding(cfg) <==> cfg.window <= cfg.retention
  {
    hide Ingested;
    if cfg.window <= cfg.retention {
      forall es: seq<Event> | Timed(es) && es != [] && es[|es|-1].Ingest?
          ensures AllHold(Run(Init(cfg), es), es[|es|-1].now) {
        var s := Run(Init(cfg), es[..|es|-1]);
        OpenMeansHolding(s, es[|es|-1].batch, es[|es|-1].now);
      }
    } else {
      var es := WindowPastRetentionFails(cfg);
    }
  }
}
