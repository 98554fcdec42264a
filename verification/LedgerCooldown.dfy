/**
 One escalation per rule and provider per cooldown, over every run: the rule looks
 for a recent opening in a table that the retention sweep deletes from.
 */
module LedgerCooldown {
  import opened LedgerModel

  // Any two openings of one rule for one provider are a cooldown apart.
  ghost predicate Spaced(cooldown: real, h: seq<Opening>) {
    forall i, j :: 0 <= i < j < |h| && h[i].rule == h[j].rule && h[i].provider == h[j].provider ==>
      h[j].at - h[i].at >= cooldown
  }

  ghost predicate OnRecord(es: seq<Escalation>, o: Opening) {
    exists k :: 0 <= k < |es| && es[k].rule == o.rule && es[k].provider == o.provider && es[k].openedAt == o.at
  }

  // An opening young enough to matter is still in the table.
  ghost predicate Remembered(cfg: Config, es: seq<Escalation>, o: Opening, t: real) {
    o.at <= t && (o.at > t - cfg.cooldown ==> OnRecord(es, o))
  }

  ghost predicate RowOk(e: Escalation, t: real) {
    e.openedAt <= t && (e.resolvedAt.Some? ==> e.openedAt <= e.resolvedAt.value)
  }

  ghost predicate Inv(s: State, t: real) {
    && Spaced(s.cfg.cooldown, s.history)
    && (forall i :: 0 <= i < |s.history| ==> Remembered(s.cfg, s.escalations, s.history[i], t))
    && (forall k :: 0 <= k < |s.escalations| ==> RowOk(s.escalations[k], t))
  }

  lemma Later(s: State, t: real, t': real)
    requires Inv(s, t) && t <= t'
    ensures Inv(s, t')
  {
    forall i | 0 <= i < |s.history| ensures Remembered(s.cfg, s.escalations, s.history[i], t') {
      assert Remembered(s.cfg, s.escalations, s.history[i], t);
    }
  }

  lemma OpeningKeepsInv(s: State, rule: Rule, provider: string, now: real)
    requires s.cfg.minSamples >= 1 && Inv(s, now)
    ensures Inv(TestRule(s, rule, provider, now), now)
  {
    var s' := TestRule(s, rule, provider, now);
    if s' != s {
      var n := |s.history|;
      var e := s'.escalations[|s.escalations|];
      assert s'.escalations == s.escalations + [e];
      forall i | 0 <= i < n && s.history[i].rule == rule && s.history[i].provider == provider
        ensures now - s.history[i].at >= s.cfg.cooldown
      {
        assert Remembered(s.cfg, s.escalations, s.history[i], now);
      }
      forall i | 0 <= i < |s'.history| ensures Remembered(s.cfg, s'.escalations, s'.history[i], now) {
        if i < n {
          assert Remembered(s.cfg, s.escalations, s.history[i], now);
          if OnRecord(s.escalations, s.history[i]) { AppendKeepsRecord(s.escalations, e, s.history[i]); }
        } else {
          assert s'.escalations[|s.escalations|] == e;
        }
      }
    }
  }

  lemma AppendKeepsRecord(es: seq<Escalation>, e: Escalation, o: Opening)
    requires OnRecord(es, o)
    ensures OnRecord(es + [e], o)
  {
    var k :| 0 <= k < |es| && es[k].rule == o.rule && es[k].provider == o.provider && es[k].openedAt == o.at;
    assert (es + [e])[k] == es[k];
  }

  lemma {:induction false} EvaluateKeepsInv(s: State, ps: seq<string>, now: real)
    requires s.cfg.minSamples >= 1 && Inv(s, now)
    ensures Inv(Evaluate(s, ps, now), now)
    decreases |ps|
  {
    if ps != [] {
      var before := Evaluate(s, ps[..|ps|-1], now);
      EvaluateKeepsInv(s, ps[..|ps|-1], now);
      OpeningKeepsInv(before, FatalBurst, ps[|ps|-1], now);
      OpeningKeepsInv(TestRule(before, FatalBurst, ps[|ps|-1], now), FailRate, ps[|ps|-1], now);
    }
  }

  // Rows rewritten in place keep what they say about their opening.
  lemma RewriteKeepsInv(s: State, es: seq<Escalation>, t: real)
    requires Inv(s, t) && |es| == |s.escalations|
    requires forall k :: 0 <= k < |es| ==>
      && es[k].rule == s.escalations[k].rule && es[k].provider == s.escalations[k].provider
      && es[k].openedAt == s.escalations[k].openedAt
      && (es[k].resolvedAt == s.escalations[k].resolvedAt || es[k].resolvedAt == Some(t))
    ensures Inv(s.(escalations := es), t)
  {
    forall i | 0 <= i < |s.history| ensures Remembered(s.cfg, es, s.history[i], t) {
      var o := s.history[i];
      assert Remembered(s.cfg, s.escalations, o, t);
      if OnRecord(s.escalations, o) {
        var k :| 0 <= k < |es| && s.escalations[k].rule == o.rule && s.escalations[k].provider == o.provider
              && s.escalations[k].openedAt == o.at;
        assert es[k].openedAt == o.at;
      }
    }
    forall k | 0 <= k < |es| ensures RowOk(es[k], t) {
      assert RowOk(s.escalations[k], t);
    }
  }

  // Deletion only forgets openings that are past their cooldown.
  lemma PruneKeepsInv(s: State, now: real)
    requires Inv(s, now) && s.cfg.cooldown <= s.cfg.retention
    ensures Inv(Pruned(s, now), now)
  {
    var s' := Pruned(s, now);
    KeptRows(s.escalations, now - s.cfg.retention);
    forall i | 0 <= i < |s.history| ensures Remembered(s.cfg, s'.escalations, s.history[i], now) {
      var o := s.history[i];
      assert Remembered(s.cfg, s.escalations, o, now);
      if o.at > now - s.cfg.cooldown {
        var k :| 0 <= k < |s.escalations| && s.escalations[k].rule == o.rule
              && s.escalations[k].provider == o.provider && s.escalations[k].openedAt == o.at;
        assert RowOk(s.escalations[k], now);
        assert s.escalations[k] in s'.escalations;
      }
    }
    forall k | 0 <= k < |s'.escalations| ensures RowOk(s'.escalations[k], now) {
      assert s'.escalations[k] in s.escalations;
    }
  }

  lemma SweepKeepsInv(s: State, now: real)
    requires s.cfg.minSamples >= 1 && Inv(s, now)
    ensures Inv(Swept(s, now), now)
  {
    RewriteKeepsInv(s, Resolve(s.cfg, s.findings, s.escalations, now), now);
  }

  lemma {:induction false} AcknowledgedRows(es: seq<Escalation>, id: nat, actor: string)
    ensures var r := Acknowledged(es, id, actor);
      && |r| == |es|
      && forall k :: 0 <= k < |es| ==>
           r[k] == if es[k].id == id && es[k].resolvedAt.None? && es[k].takenBy.None?
                   then es[k].(takenBy := Some(actor)) else es[k]
  {
    if es != [] {
      AcknowledgedRows(es[..|es|-1], id, actor);
    }
  }

  lemma IngestKeepsInv(s: State, batch: seq<Finding>, now: real)
    requires s.cfg.minSamples >= 1 && Inv(s, now) && s.cfg.cooldown <= s.cfg.retention
    ensures Inv(Ingested(s, batch, now), now)
  {
    var stored := Stored(s, batch, now);
    assert Inv(stored, now);
    var ps := Providers(Admitted(s.cfg, batch, now));
    EvaluateKeepsInv(stored, ps, now);
    SweepKeepsInv(Evaluate(stored, ps, now), now);
    PruneKeepsInv(Judged(s, batch, now), now);
  }

  lemma NextKeepsInv(s: State, t: real, e: Event)
    requires s.cfg.minSamples >= 1 && Inv(s, t) && t <= e.now && s.cfg.cooldown <= s.cfg.retention
    ensures Inv(Next(s, e), e.now)
  {
    Later(s, t, e.now);
    match e
    case Ingest(batch, now) => IngestKeepsInv(s, batch, now);
    case Sweep(now) => SweepKeepsInv(s, now);
    case Prune(now) => PruneKeepsInv(s, now);
    case Acknowledge(id, actor, now) =>
      AcknowledgedRows(s.escalations, id, actor);
      RewriteKeepsInv(s, Acknowledged(s.escalations, id, actor), now);
  }

  lemma {:induction false} RunKeepsInv(cfg: Config, es: seq<Event>)
    requires cfg.minSamples >= 1 && cfg.cooldown <= cfg.retention && Timed(es)
    ensures Inv(Run(Init(cfg), es), if es == [] then 0.0 else es[|es|-1].now)
    decreases |es|
  {
    if es != [] {
      var init := es[..|es|-1];
      RunKeepsInv(cfg, init);
      var t := if init == [] then es[|es|-1].now else init[|init|-1].now;
      if init == [] { assert Inv(Run(Init(cfg), init), t); }
      NextKeepsInv(Run(Init(cfg), init), t, es[|es|-1]);
    }
  }

  // ------------------------------------------------------------- main results

  // The rule keeps its cooldown even though the table forgets.
  lemma OpeningsSpaced(cfg: Config, es: seq<Event>)
    requires cfg.minSamples >= 1 && cfg.cooldown <= cfg.retention && Timed(es)
    ensures Spaced(cfg.cooldown, Run(Init(cfg), es).history)
  {
    RunKeepsInv(cfg, es);
  }

  predicate Counts(o: Opening, rule: Rule, provider: string, a: real, b: real) {
    o.rule == rule && o.provider == provider && a <= o.at <= b
  }

  function Openings(h: seq<Opening>, rule: Rule, provider: string, a: real, b: real): nat {
    if h == [] then 0
    else Openings(h[..|h|-1], rule, provider, a, b) + (if Counts(h[|h|-1], rule, provider, a, b) then 1 else 0)
  }

  // `n` cooldowns end to end.
  function Times(n: nat, c: real): real {
    if n == 0 then 0.0 else Times(n - 1, c) + c
  }

  lemma {:induction false} TimesIsProduct(n: nat, x: real, c: real)
    requires x == n as real
    ensures Times(n, c) == x * c
  {
    if n > 0 {
      TimesIsProduct(n - 1, x - 1.0, c);
      assert (x - 1.0) * c == x * c - c;
    }
  }

  lemma {:induction false} SpacedPrefix(c: real, h: seq<Opening>, rule: Rule, provider: string, a: real, b: real)
    returns (i: nat)
    requires Spaced(c, h) && Openings(h, rule, provider, a, b) >= 1
    ensures i < |h| && Counts(h[i], rule, provider, a, b)
    ensures Times(Openings(h, rule, provider, a, b) - 1, c) <= h[i].at - a
  {
    var init := h[..|h|-1];
    if !Counts(h[|h|-1], rule, provider, a, b) {
      i := SpacedPrefix(c, init, rule, provider, a, b);
    } else {
      i := |h| - 1;
      if Openings(init, rule, provider, a, b) >= 1 {
        var k := SpacedPrefix(c, init, rule, provider, a, b);
        assert h[i].at - h[k].at >= c;
      }
    }
  }

  // However bad a provider is, an interval of length L holds no more than
  // L / cooldown + 1 openings of one rule for it.
  lemma OpeningsInInterval(cfg: Config, es: seq<Event>, rule: Rule, provider: string, a: real, b: real)
    requires cfg.minSamples >= 1 && 0.0 < cfg.cooldown <= cfg.retention && Timed(es) && a <= b
    ensures var n := Openings(Run(Init(cfg), es).history, rule, provider, a, b);
      n as real <= (b - a) / cfg.cooldown + 1.0
  {
    OpeningsSpaced(cfg, es);
    IntervalBound(cfg.cooldown, Run(Init(cfg), es).history, rule, provider, a, b);
  }

  lemma IntervalBound(c: real, h: seq<Opening>, rule: Rule, provider: string, a: real, b: real)
    requires c > 0.0 && Spaced(c, h) && a <= b
    ensures Openings(h, rule, provider, a, b) as real <= (b - a) / c + 1.0
  {
    var n := Openings(h, rule, provider, a, b);
    if n >= 1 {
      var i := SpacedPrefix(c, h, rule, provider, a, b);
      var x := n as real - 1.0;
      TimesIsProduct(n - 1, x, c);
      DivideThrough(x, c, b - a);
    } else {
      assert 0.0 * c == 0.0;
      DivideThrough(0.0, c, b - a);
    }
  }

  lemma DivideThrough(x: real, c: real, l: real)
    requires c > 0.0 && x * c <= l
    ensures x <= l / c
  {
    var d := l - x * c;
    assert d / c >= 0.0;
    assert (x + d / c) * c == x * c + d;
    assert l / c == x + d / c;
  }

  // --------------------------------------- when the cooldown outlives retention

  // A configuration in which every setting means something.
  predicate Sensible(cfg: Config) {
    cfg.retention >= 0.0 && cfg.window >= 0.0 && cfg.fatalCount >= 1 && cfg.minSamples >= 1
  }

  // `k` fatal findings of one instance, all observed at once.
  function Burst(k: nat, base: nat, at: real): seq<Finding> {
    if k == 0 then [] else Burst(k - 1, base, at) + [Finding("a", base + k - 1, at, "p", false, 1)]
  }

  lemma {:induction false} BurstRows(k: nat, base: nat, at: real)
    ensures |Burst(k, base, at)| == k
    ensures forall i :: 0 <= i < k ==> Burst(k, base, at)[i] == Finding("a", base + i, at, "p", false, 1)
  {
    if k > 0 { BurstRows(k - 1, base, at); }
  }

  lemma {:induction false} BurstStored(cfg: Config, k: nat, base: nat, at: real, now: real)
    requires now - cfg.retention <= at <= now
    ensures Admitted(cfg, Burst(k, base, at), now) == Burst(k, base, at)
    ensures InsertAll([], Burst(k, base, at)).0 == Burst(k, base, at)
  {
    BurstRows(k, base, at);
    if k > 0 {
      var init := Burst(k - 1, base, at);
      assert Burst(k, base, at)[..k-1] == init;
      BurstStored(cfg, k - 1, base, at, now);
      BurstRows(k - 1, base, at);
    }
  }

  lemma {:induction false} BurstStats(k: nat, base: nat, at: real, since: real)
    requires since <= at
    ensures StatsOf(Burst(k, base, at), "p", since) == Stats(k, k, k)
  {
    if k > 0 {
      assert Burst(k, base, at)[..|Burst(k, base, at)|-1] == Burst(k - 1, base, at);
      BurstStats(k - 1, base, at, since);
    }
  }

  lemma {:induction false} BurstProvider(k: nat, base: nat, at: real)
    requires k >= 1
    ensures Providers(Burst(k, base, at)) == ["p"]
  {
    assert Burst(k, base, at)[..|Burst(k, base, at)|-1] == Burst(k - 1, base, at);
    if k > 1 { BurstProvider(k - 1, base, at); }
  }

  // The two rules, met by a burst and an empty table.
  lemma BurstTested(s: State, k: nat, base: nat, at: real, now: real)
    requires Sensible(s.cfg) && s.escalations == [] && k == s.cfg.fatalCount
    requires s.findings == Burst(k, base, at) && now - s.cfg.window <= at
    ensures var s' := Evaluate(s, ["p"], now);
      && s'.findings == s.findings && s'.lastPrune == s.lastPrune
      && s.history + [Opening(FatalBurst, "p", now)] <= s'.history
      && (forall e :: e in s'.escalations ==> e.resolvedAt.None?)
  {
    BurstStats(k, base, at, now - s.cfg.window);
    var first := TestRule(s, FatalBurst, "p", now);
    assert first.history == s.history + [Opening(FatalBurst, "p", now)];
    assert ["p"][..0] == [];
    assert Evaluate(s, [], now) == s;
    assert Evaluate(s, ["p"], now) == TestRule(first, FailRate, "p", now);
  }

  lemma ResolvedNow(s: State, now: real)
    requires s.cfg.minSamples >= 1
    requires forall e :: e in s.escalations ==> e.resolvedAt.None?
    ensures forall e :: e in Swept(s, now).escalations ==> e.resolvedAt.None? || e.resolvedAt.value == now
  {
    forall e | e in Swept(s, now).escalations ensures e.resolvedAt.None? || e.resolvedAt.value == now {
      var i :| 0 <= i < |s.escalations| && e == ResolveOne(s.cfg, s.findings, s.escalations[i], now);
      assert s.escalations[i] in s.escalations;
    }
  }

  // The closing prune only takes rows away.
  lemma IngestedFrom(s: State, batch: seq<Finding>, now: real)
    requires s.cfg.minSamples >= 1
    ensures var j := Judged(s, batch, now); var r := Ingested(s, batch, now);
      && r.history == j.history
      && (forall f :: f in r.findings ==> f in j.findings)
      && (forall e :: e in r.escalations ==> e in j.escalations)
  {
    var j := Judged(s, batch, now);
    KeptRows(j.escalations, now - s.cfg.retention);
    KeptFindings(j.findings, now - s.cfg.retention);
  }

  lemma BurstJudged(s: State, base: nat, at: real, now: real)
    requires Sensible(s.cfg) && s.findings == [] && s.escalations == []
    requires now - s.cfg.retention <= at <= now && now - s.cfg.window <= at
    ensures var j := Judged(s, Burst(s.cfg.fatalCount, base, at), now);
      && j.findings == Burst(s.cfg.fatalCount, base, at)
      && s.history + [Opening(FatalBurst, "p", now)] <= j.history
      && (forall e :: e in j.escalations ==> e.resolvedAt.None? || e.resolvedAt.value == now)
  {
    var k := s.cfg.fatalCount;
    var rows := Burst(k, base, at);
    BurstStored(s.cfg, k, base, at, now);
    BurstProvider(k, base, at);
    var stored := Stored(s, rows, now);
    BurstTested(stored, k, base, at, now);
    ResolvedNow(Evaluate(stored, ["p"], now), now);
  }

  // A burst met by an empty ledger opens an escalation.
  lemma BurstOpens(s: State, base: nat, at: real, now: real)
    requires Sensible(s.cfg) && s.findings == [] && s.escalations == []
    requires now - s.cfg.retention <= at <= now && now - s.cfg.window <= at
    ensures var s' := Ingested(s, Burst(s.cfg.fatalCount, base, at), now);
      && s.history + [Opening(FatalBurst, "p", now)] <= s'.history
      && (forall f :: f in s'.findings ==> f.observedAt == at)
      && (forall e :: e in s'.escalations ==> e.resolvedAt.None? || e.resolvedAt.value == now)
  {
    BurstJudged(s, base, at, now);
    BurstRows(s.cfg.fatalCount, base, at);
    IngestedFrom(s, Burst(s.cfg.fatalCount, base, at), now);
  }

  // Five calls after which the escalation has been resolved, deleted and opened
  // again; `d` is how long they wait between two of them.
  function Forgetful(cfg: Config, d: real): (es: seq<Event>)
    requires Sensible(cfg)
    ensures IsForgetful(cfg, d, es)
  {
    var t := cfg.retention + cfg.window;
    var later := t + cfg.retention + 2.0 * d;
    [Ingest(Burst(cfg.fatalCount, 0, Oldest(cfg, t)), t), Prune(t + d), Sweep(t + d), Prune(later),
     Ingest(Burst(cfg.fatalCount, cfg.fatalCount, later), later)]
  }

  // The oldest observation that is neither stale nor out of the window.
  function Oldest(cfg: Config, t: real): real {
    t - (if cfg.window <= cfg.retention then cfg.window else cfg.retention)
  }

  predicate IsForgetful(cfg: Config, d: real, es: seq<Event>)
    requires Sensible(cfg)
  {
    var t := cfg.retention + cfg.window;
    var later := t + cfg.retention + 2.0 * d;
    && |es| == 5
    && es[0] == Ingest(Burst(cfg.fatalCount, 0, Oldest(cfg, t)), t) && es[1] == Prune(t + d)
    && es[2] == Sweep(t + d) && es[3] == Prune(later)
    && es[4] == Ingest(Burst(cfg.fatalCount, cfg.fatalCount, later), later)
  }

  lemma {:induction false} NothingInWindow(table: seq<Finding>, p: string, since: real)
    requires forall f :: f in table ==> f.observedAt < since
    ensures StatsOf(table, p, since) == Stats(0, 0, 0)
  {
    if table != [] {
      assert table == table[..|table|-1] + [table[|table|-1]];
      NothingInWindow(table[..|table|-1], p, since);
    }
  }

  // After a sweep over a window with nothing in it, every row is resolved.
  lemma SweptClean(s: State, now: real, t: real)
    requires Sensible(s.cfg) && t <= now
    requires forall f :: f in s.findings ==> f.observedAt < now - s.cfg.window
    requires forall e :: e in s.escalations ==> e.resolvedAt.None? || e.resolvedAt.value == t
    ensures forall e :: e in Swept(s, now).escalations ==> e.resolvedAt.Some? && e.resolvedAt.value <= now
  {
    var r := Resolve(s.cfg, s.findings, s.escalations, now);
    forall e | e in r ensures e.resolvedAt.Some? && e.resolvedAt.value <= now {
      var i :| 0 <= i < |r| && r[i] == e;
      assert s.escalations[i] in s.escalations;
      NothingInWindow(s.findings, s.escalations[i].provider, now - s.cfg.window);
    }
  }

  lemma {:induction false} KeepNone(table: seq<Finding>, es: seq<Escalation>, cutoff: real)
    ensures (forall f :: f in table ==> f.observedAt < cutoff) ==> KeepFindings(table, cutoff) == []
    ensures (forall e :: e in es ==> e.resolvedAt.Some? && e.resolvedAt.value < cutoff) ==>
        KeepEscalations(es, cutoff) == []
    decreases |table| + |es|
  {
    if table != [] {
      assert table == table[..|table|-1] + [table[|table|-1]];
      KeepNone(table[..|table|-1], es, cutoff);
    } else if es != [] {
      assert es == es[..|es|-1] + [es[|es|-1]];
      KeepNone(table, es[..|es|-1], cutoff);
    }
    if es != [] {
      assert es == es[..|es|-1] + [es[|es|-1]];
      KeepNone(table, es[..|es|-1], cutoff);
    }
  }

  lemma RunStep(s: State, es: seq<Event>, n: nat)
    requires s.cfg.minSamples >= 1 && n < |es|
    ensures Run(s, es[..n+1]) == Next(Run(s, es[..n]), es[n])
  {
    assert es[..n+1][..n] == es[..n];
  }

  ghost predicate Fading(s: State, o: Opening, t: real, soon: real) {
    && [o] <= s.history
    && (forall f :: f in s.findings ==> f.observedAt < soon - s.cfg.window && f.observedAt <= t)
    && (forall e :: e in s.escalations ==> e.resolvedAt.None? || e.resolvedAt.value == t)
  }

  ghost predicate Blank(s: State) { s.findings == [] && s.escalations == [] && s.history == [] }

  // A burst and a prune open an escalation that nothing in a later window supports.
  lemma OpenAndFade(s: State, t: real, soon: real)
    requires Sensible(s.cfg) && Blank(s) && t < soon
    ensures Fading(Pruned(Ingested(s, Burst(s.cfg.fatalCount, 0, Oldest(s.cfg, t)), t), soon),
                   Opening(FatalBurst, "p", t), t, soon)
  {
    BurstOpens(s, 0, Oldest(s.cfg, t), t);
    var s1 := Ingested(s, Burst(s.cfg.fatalCount, 0, Oldest(s.cfg, t)), t);
    FadesBy(s1, Oldest(s.cfg, t), t, soon);
  }

  lemma FadesBy(s: State, at: real, t: real, soon: real)
    requires [Opening(FatalBurst, "p", t)] <= s.history && at == Oldest(s.cfg, t) && t < soon
    requires s.cfg.retention >= 0.0 && s.cfg.window >= 0.0
    requires forall f :: f in s.findings ==> f.observedAt == at
    requires forall e :: e in s.escalations ==> e.resolvedAt.None? || e.resolvedAt.value == t
    ensures Fading(Pruned(s, soon), Opening(FatalBurst, "p", t), t, soon)
  {
    KeptFindings(s.findings, soon - s.cfg.retention);
    KeptRows(s.escalations, soon - s.cfg.retention);
  }

  // A sweep resolves it, and a later prune deletes it.
  lemma ResolveAndForget(s: State, o: Opening, t: real, soon: real, later: real)
    requires Sensible(s.cfg) && t <= soon < later - s.cfg.retention && Fading(s, o, t, soon)
    ensures var s' := Pruned(Swept(s, soon), later); s'.findings == [] && s'.escalations == [] && [o] <= s'.history
  {
    SweptClean(s, soon, t);
    KeepNone(s.findings, Swept(s, soon).escalations, later - s.cfg.retention);
  }

  lemma RunTwo(s: State, es: seq<Event>, n: nat) returns (s': State)
    requires s.cfg.minSamples >= 1 && n + 2 <= |es|
    ensures s'.cfg == s.cfg
    ensures s' == Next(Next(Run(s, es[..n]), es[n]), es[n+1]) == Run(s, es[..n+2])
  {
    assert Run(s, es[..n+1]) == Next(Run(s, es[..n]), es[n]) by { RunStep(s, es, n); }
    assert Run(s, es[..n+2]) == Next(Run(s, es[..n+1]), es[n+1]) by { RunStep(s, es, n + 1); }
    s' := Run(s, es[..n+2]);
  }

  lemma OpenThenPrune(s: State, b: seq<Finding>, t: real, u: real)
    requires s.cfg.minSamples >= 1
    ensures Next(Next(s, Ingest(b, t)), Prune(u)) == Pruned(Ingested(s, b, t), u)
  {
  }

  lemma ForgetfulStart(s: State, d: real, es: seq<Event>) returns (s2: State)
    requires Sensible(s.cfg) && Blank(s) && d > 0.0 && IsForgetful(s.cfg, d, es)
    ensures s2 == Run(s, es[..2]) && s2.cfg == s.cfg
    ensures var t := s.cfg.retention + s.cfg.window; Fading(s2, Opening(FatalBurst, "p", t), t, t + d)
  {
    hide Ingested, Burst;
    var t := s.cfg.retention + s.cfg.window;
    var b := Burst(s.cfg.fatalCount, 0, Oldest(s.cfg, t));
    s2 := RunTwo(s, es, 0);
    assert s2 == Pruned(Ingested(s, b, t), t + d) by {
      assert es[..0] == [];
      OpenThenPrune(s, b, t, t + d);
    }
    OpenAndFade(s, t, t + d);
  }

  lemma ForgetfulMiddle(s: State, d: real, es: seq<Event>) returns (s4: State)
    requires Sensible(s.cfg) && Blank(s) && d > 0.0 && IsForgetful(s.cfg, d, es)
    ensures s4 == Run(s, es[..4]) && s4.cfg == s.cfg
    ensures var t := s.cfg.retention + s.cfg.window;
      s4.findings == [] && s4.escalations == [] && [Opening(FatalBurst, "p", t)] <= s4.history
  {
    hide Swept, Pruned;
    var t := s.cfg.retention + s.cfg.window;
    var s2 := ForgetfulStart(s, d, es);
    s4 := RunTwo(s, es, 2);
    assert s4 == Pruned(Swept(s2, t + d), t + s.cfg.retention + 2.0 * d);
    ResolveAndForget(s2, Opening(FatalBurst, "p", t), t, t + d, t + s.cfg.retention + 2.0 * d);
  }

  // Two openings of one kind close to one another.
  lemma TooClose(c: real, h: seq<Opening>, before: seq<Opening>, t: real, later: real)
    requires [Opening(FatalBurst, "p", t)] <= before && before + [Opening(FatalBurst, "p", later)] <= h
    requires later - t < c
    ensures !Spaced(c, h)
  {
    assert h[0] == Opening(FatalBurst, "p", t);
    assert h[|before|] == Opening(FatalBurst, "p", later);
  }

  lemma ForgetfulReopens(s: State, d: real, es: seq<Event>)
    requires Sensible(s.cfg) && Blank(s) && d > 0.0 && s.cfg.retention + 2.0 * d < s.cfg.cooldown
    requires IsForgetful(s.cfg, d, es)
    ensures Timed(es) && !Spaced(s.cfg.cooldown, Run(s, es).history)
  {
    hide Ingested, Burst;
    var t := s.cfg.retention + s.cfg.window;
    var later := t + s.cfg.retention + 2.0 * d;
    var s4 := ForgetfulMiddle(s, d, es);
    BurstOpens(s4, s.cfg.fatalCount, later, later);
    var s5 := Ingested(s4, Burst(s.cfg.fatalCount, s.cfg.fatalCount, later), later);
    TooClose(s.cfg.cooldown, s5.history, s4.history, t, later);
    assert Run(s, es) == s5 by {
      RunStep(s, es, 4);
      assert es[..5] == es;
    }
  }

  // Over every run the openings stay a cooldown apart.
  ghost predicate KeepsCooldown(cfg: Config)
    requires Sensible(cfg)
  {
    forall es :: Timed(es) ==> Spaced(cfg.cooldown, Run(Init(cfg), es).history)
  }

  // Exactly which configurations keep their cooldown.
  lemma CooldownKeptIffRetained(cfg: Config)
    requires Sensible(cfg)
    ensures KeepsCooldown(cfg) <==> cfg.cooldown <= cfg.retention
  {
    if cfg.cooldown <= cfg.retention {
      forall es | Timed(es) ensures Spaced(cfg.cooldown, Run(Init(cfg), es).history) {
        OpeningsSpaced(cfg, es);
      }
    } else {
      var d := (cfg.cooldown - cfg.retention) / 3.0;
      ForgetfulReopens(Init(cfg), d, Forgetful(cfg, d));
    }
  }

  // ... as the settings are given: in days and minutes.
  lemma CooldownKeptInDays(retentionDays: int, windowMinutes: int, cooldownMinutes: int,
                           fatalCount: int, failRate: real, minSamples: int)
    requires Sensible(Tunables(retentionDays, windowMinutes, cooldownMinutes, fatalCount, failRate, minSamples))
    ensures KeepsCooldown(Tunables(retentionDays, windowMinutes, cooldownMinutes, fatalCount, failRate, minSamples))
       <==> cooldownMinutes <= 1440 * retentionDays
  {
    CooldownKeptIffRetained(Tunables(retentionDays, windowMinutes, cooldownMinutes, fatalCount, failRate, minSamples));
  }
}
