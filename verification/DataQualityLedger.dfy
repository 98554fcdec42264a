/**
 The ledger object over its two tables.  Each public call is one event of the
 machine in LedgerModel, and nothing runs between its statements.
 */
module DataQualityLedger {
  import opened LedgerModel
  import LedgerConditions
  import LedgerRows
  import opened LedgerRules

  class Ledger {
    const cfg: Config
    var findings: seq<Finding>
    var escalations: seq<Escalation>
    var lastPrune: real

    ghost var accepted: seq<Finding>
    ghost var history: seq<Opening>
    ghost var trace: seq<Event>

    ghost function View(): State
      reads this
    {
      State(cfg, findings, escalations, lastPrune, accepted, history)
    }

    ghost predicate Valid()
      reads this
    {
      cfg.minSamples >= 1 && View() == Run(Init(cfg), trace)
    }

    constructor (cfg: Config)
      requires cfg.minSamples >= 1
      ensures Valid() && trace == [] && this.cfg == cfg
    {
      this.cfg := cfg;
      findings, escalations, lastPrune := [], [], 0.0;
      accepted, history, trace := [], [], [];
    }

    ghost method Record(e: Event)
      requires Valid()
      modifies this`trace
      ensures trace == old(trace) + [e]
      ensures Run(Init(cfg), trace) == Next(old(View()), e)
    {
      assert (trace + [e])[..|trace|] == trace;
      trace := trace + [e];
    }

    // The escalations the batch opened come back to the caller.
    method Ingest(batch: seq<Finding>, now: real) returns (escalated: seq<Escalation>)
      requires Valid()
      modifies this
      ensures Valid() && trace == old(trace) + [LedgerModel.Ingest(batch, now)]
      ensures View() == Ingested(old(View()), batch, now)
      ensures escalated == LedgerConditions.Opened(old(View()), batch, now)
      ensures forall rule, provider :: Reports(escalated, rule, provider) <==>
                Pushes(cfg, batch, provider, now)
                && Met(cfg, Stored(old(View()), batch, now).findings, rule, provider, now)
                && Quiet(cfg, old(escalations), rule, provider, now)
    {
      hide Met, Quiet, Pushes;
      forall rule, provider
        ensures Reports(LedgerConditions.Opened(View(), batch, now), rule, provider) <==>
                  Pushes(cfg, batch, provider, now)
                  && Met(cfg, Stored(View(), batch, now).findings, rule, provider, now)
                  && Quiet(cfg, escalations, rule, provider, now)
      {
        OpensIff(View(), batch, now, rule, provider);
      }
      hide Run, Evaluate, Resolve, InsertAll, KeepFindings, KeepEscalations, Providers;
      Record(LedgerModel.Ingest(batch, now));
      var rows, cutoff := [], now - cfg.retention;
      for i := 0 to |batch|
        invariant rows == Admitted(cfg, batch[..i], now)
      {
        assert batch[..i+1][..i] == batch[..i];
        var f := batch[i];
        if f.observedAt < cutoff || now + FUTURE_SLACK_MS < f.observedAt {
          continue;
        }
        rows := rows + [f];
      }
      assert batch[..|batch|] == batch;
      InsertRows(rows);
      var providers := Providers(rows);
      escalated := EvaluateRules(providers, now);
      ResolveCleared(now);
      if now - lastPrune >= PRUNE_EVERY_MS {
        DeleteOld(now);
      }
    }

    // An insert that conflicts on (instance, seq) does nothing.
    method InsertRows(rows: seq<Finding>)
      modifies this`findings, this`accepted
      ensures findings == InsertAll(old(findings), rows).0
      ensures accepted == old(accepted) + InsertAll(old(findings), rows).1
    {
      ghost var news := [];
      for i := 0 to |rows|
        invariant (findings, news) == InsertAll(old(findings), rows[..i])
        invariant accepted == old(accepted) + news
      {
        assert rows[..i+1][..i] == rows[..i];
        if !HasKey(findings, rows[i]) {
          findings := findings + [rows[i]];
          news := news + [rows[i]];
          accepted := accepted + [rows[i]];
        }
      }
      assert rows[..|rows|] == rows;
    }

    method EvaluateRules(providers: seq<string>, now: real) returns (escalated: seq<Escalation>)
      requires cfg.minSamples >= 1
      modifies this`escalations, this`history
      ensures View() == Evaluate(old(View()), providers, now)
      ensures escalations == old(escalations) + escalated
    {
      hide TestRule, StatsOf, Holds;
      escalated := [];
      for i := 0 to |providers|
        invariant View() == Evaluate(old(View()), providers[..i], now)
        invariant escalations == old(escalations) + escalated
      {
        assert providers[..i+1][..i] == providers[..i];
        escalated := EvaluateProvider(providers[i], now, escalated);
      }
      assert providers[..|providers|] == providers;
    }

    // Both rules, over one count of the window.
    method EvaluateProvider(provider: string, now: real, before: seq<Escalation>) returns (escalated: seq<Escalation>)
      requires cfg.minSamples >= 1
      modifies this`escalations, this`history
      ensures View() == TestRule(TestRule(old(View()), FatalBurst, provider, now), FailRate, provider, now)
      ensures before <= escalated && escalations == old(escalations) + escalated[|before|..]
      ensures forall rule :: Reports(escalated[|before|..], rule, provider) <==>
                Met(cfg, findings, rule, provider, now) && Quiet(cfg, old(escalations), rule, provider, now)
      ensures forall e :: e in escalated[|before|..] ==> e.provider == provider && Written(cfg, findings, e, now)
    {
      hide Met, Quiet, Written;
      BothRules(View(), provider, now);
      escalated := before;
      var stats := StatsOf(findings, provider, now - cfg.window);
      if stats.fatal >= cfg.fatalCount && !WithinCooldown(cfg, escalations, FatalBurst, provider, now) {
        var e := Open(FatalBurst, provider, now, stats.fatal, stats.evaluated);
        escalated := escalated + [e];
      }
      assert View() == TestRule(old(View()), FatalBurst, provider, now);
      if stats.evaluated >= cfg.minSamples {
        var rate := stats.failed as real / stats.evaluated as real;
        if rate > cfg.failRate && !WithinCooldown(cfg, escalations, FailRate, provider, now) {
          var e := Open(FailRate, provider, now, stats.failed, stats.evaluated);
          escalated := escalated + [e];
        }
      }
    }

    method Open(rule: Rule, provider: string, now: real, count: nat, evaluated: nat) returns (e: Escalation)
      modifies this`escalations, this`history
      ensures e == Escalation(NextId(old(escalations)), rule, provider, now, count, evaluated, None, None)
      ensures escalations == old(escalations) + [e]
      ensures history == old(history) + [Opening(rule, provider, now)]
    {
      e := Escalation(NextId(escalations), rule, provider, now, count, evaluated, None, None);
      escalations := escalations + [e];
      history := history + [Opening(rule, provider, now)];
    }

    method ResolveCleared(now: real)
      requires cfg.minSamples >= 1
      modifies this`escalations
      ensures View() == Swept(old(View()), now)
      ensures |escalations| == |old(escalations)|
      ensures forall i :: 0 <= i < |escalations| ==>
                escalations[i] == Settled(cfg, findings, old(escalations)[i], now)
    {
      forall i | 0 <= i < |escalations|
        ensures Swept(View(), now).escalations[i] == Settled(cfg, findings, escalations[i], now)
      {
        ResolvedIff(View(), now, i);
      }
      hide Settled;
      for i := 0 to |escalations|
        invariant |escalations| == |old(escalations)|
        invariant forall k :: 0 <= k < i ==> escalations[k] == ResolveOne(cfg, findings, old(escalations)[k], now)
        invariant forall k :: i <= k < |escalations| ==> escalations[k] == old(escalations)[k]
      {
        var row := escalations[i];
        if row.resolvedAt.None? {
          var stats := StatsOf(findings, row.provider, now - cfg.window);
          var still := if row.rule == FatalBurst then stats.fatal >= cfg.fatalCount
                       else stats.evaluated >= cfg.minSamples
                            && stats.failed as real / stats.evaluated as real > cfg.failRate;
          if !still {
            escalations := escalations[i := row.(resolvedAt := Some(now))];
          }
        }
      }
      assert escalations == Resolve(cfg, findings, old(escalations), now);
    }

    // The periodic sweep.
    method Sweep(now: real)
      requires Valid()
      modifies this
      ensures Valid() && trace == old(trace) + [LedgerModel.Sweep(now)]
      ensures View() == Swept(old(View()), now)
    {
      Record(LedgerModel.Sweep(now));
      ResolveCleared(now);
    }

    method Prune(now: real) returns (removed: nat)
      requires Valid()
      modifies this
      ensures Valid() && trace == old(trace) + [LedgerModel.Prune(now)]
      ensures View() == Pruned(old(View()), now)
      ensures removed == |old(findings)| - |findings|
    {
      Record(LedgerModel.Prune(now));
      var n := |findings|;
      DeleteOld(now);
      KeptCounts(old(findings), now - cfg.retention);
      removed := n - |findings|;
    }

    method DeleteOld(now: real)
      modifies this`findings, this`escalations, this`lastPrune
      ensures View() == Pruned(old(View()), now)
    {
      lastPrune := now;
      var cutoff := now - cfg.retention;
      findings := KeepFindings(findings, cutoff);
      escalations := KeepEscalations(escalations, cutoff);
    }

    // False when no unresolved escalation has that id; the first name stands.
    method Acknowledge(id: nat, actor: string, now: real) returns (found: bool)
      requires Valid()
      modifies this
      ensures Valid() && trace == old(trace) + [LedgerModel.Acknowledge(id, Capped(actor), now)]
      ensures found <==> exists i :: 0 <= i < |old(escalations)| && IsOpen(old(escalations)[i], id)
      ensures !found ==> escalations == old(escalations)
      ensures findings == old(findings) && LedgerRows.Kept(old(escalations), escalations)
      ensures |escalations| == |old(escalations)|
      ensures forall i :: 0 <= i < |escalations| ==>
                var e, n := old(escalations)[i], if |actor| < 120 then |actor| else 120;
                escalations[i] == if IsOpen(e, id) && e.takenBy.None? then e.(takenBy := Some(actor[..n])) else e
      ensures found ==> exists i :: 0 <= i < |escalations| && IsOpen(escalations[i], id) && escalations[i].takenBy.Some?
    {
      hide Run, Next;
      LedgerRows.RunKeepsIds(cfg, trace);
      AcknowledgeStep(View(), id, Capped(actor), now);
      Record(LedgerModel.Acknowledge(id, Capped(actor), now));
      var i := 0;
      while i < |escalations| && !IsOpen(escalations[i], id)
        invariant 0 <= i <= |escalations|
        invariant forall k :: 0 <= k < i ==> !IsOpen(escalations[k], id)
      {
        i := i + 1;
      }
      hide LedgerRows.Kept, LedgerRows.IdsAscend, Acknowledged;
      AcknowledgesAt(escalations, id, Capped(actor), i);
      found := i < |escalations|;
      if found && escalations[i].takenBy.None? {
        escalations := escalations[i := escalations[i].(takenBy := Some(Capped(actor)))];
      }
      assert found ==> IsOpen(escalations[i], id) && escalations[i].takenBy.Some?;
      assert Capped(actor) == actor[..if |actor| < 120 then |actor| else 120];
      AcknowledgedEach(old(escalations), id, Capped(actor));
    }
  }

  // One of the escalations is of that rule and provider.
  ghost predicate Reports(es: seq<Escalation>, rule: Rule, provider: string) {
    exists e :: e in es && e.rule == rule && e.provider == provider
  }

  // A row once those whose condition is no longer met are resolved.
  function Settled(cfg: Config, findings: seq<Finding>, e: Escalation, now: real): Escalation {
    if e.resolvedAt.None? && !Met(cfg, findings, e.rule, e.provider, now) then e.(resolvedAt := Some(now)) else e
  }

  // Both tests of one provider.
  lemma BothRules(s: State, provider: string, now: real)
    requires s.cfg.minSamples >= 1
    ensures var es := TestRule(TestRule(s, FatalBurst, provider, now), FailRate, provider, now).escalations;
      && s.escalations <= es
      && (forall rule :: Reports(es[|s.escalations|..], rule, provider) <==>
            Met(s.cfg, s.findings, rule, provider, now) && Quiet(s.cfg, s.escalations, rule, provider, now))
      && (forall e :: e in es[|s.escalations|..] ==> e.provider == provider && Written(s.cfg, s.findings, e, now))
  {
    hide Met, Written, TestRule;
    var t := TestRule(s, FatalBurst, provider, now);
    TestOpens(s, FatalBurst, provider, now);
    TestOpens(t, FailRate, provider, now);
    var n, es := |s.escalations|, TestRule(t, FailRate, provider, now).escalations;
    assert t.escalations[..n] == s.escalations;
    OtherRuleIsQuiet(s.cfg, s.escalations, t.escalations, provider, now);
    forall rule
      ensures Reports(es[n..], rule, provider) <==>
                Met(s.cfg, s.findings, rule, provider, now) && Quiet(s.cfg, s.escalations, rule, provider, now)
    {
      hide Quiet;
      if rule == FatalBurst && |t.escalations| > n { assert es[n..][0] == t.escalations[n]; }
      if rule == FailRate && |es| > |t.escalations| { assert es[n..][|t.escalations|-n] == es[|t.escalations|]; }
    }
  }

  // A row of the first rule does not quiet the second.
  lemma OtherRuleIsQuiet(cfg: Config, a: seq<Escalation>, b: seq<Escalation>, provider: string, now: real)
    requires |a| <= |b| <= |a| + 1 && b[..|a|] == a && (|b| > |a| ==> b[|a|].rule == FatalBurst)
    ensures Quiet(cfg, b, FailRate, provider, now) <==> Quiet(cfg, a, FailRate, provider, now)
  {
    assert forall i :: 0 <= i < |a| ==> b[i] == a[i];
  }

  predicate IsOpen(e: Escalation, id: nat) { e.id == id && e.resolvedAt.None? }

  // The name as it is stored: its first 120 characters.
  function Capped(actor: string): string { if |actor| <= 120 then actor else actor[..120] }

  lemma {:induction false} KeptCounts(table: seq<Finding>, cutoff: real)
    ensures |KeepFindings(table, cutoff)| <= |table|
  {
    if table != [] { KeptCounts(table[..|table|-1], cutoff); }
  }

  lemma AcknowledgeStep(s: State, id: nat, actor: string, now: real)
    requires s.cfg.minSamples >= 1 && LedgerRows.IdsAscend(s.escalations)
    ensures Next(s, LedgerModel.Acknowledge(id, actor, now))
        == s.(escalations := Acknowledged(s.escalations, id, actor))
    ensures LedgerRows.Kept(s.escalations, Acknowledged(s.escalations, id, actor))
  {
    LedgerRows.NextKeepsRows(s, LedgerModel.Acknowledge(id, actor, now));
  }

  lemma {:induction false} AcknowledgedEach(es: seq<Escalation>, id: nat, actor: string)
    ensures var r := Acknowledged(es, id, actor);
      && |r| == |es|
      && forall i :: 0 <= i < |es| ==>
           r[i] == if IsOpen(es[i], id) && es[i].takenBy.None? then es[i].(takenBy := Some(actor)) else es[i]
  {
    if es != [] { AcknowledgedEach(es[..|es|-1], id, actor); }
  }

  // Because an id names one row, only the first match is touched.
  lemma {:induction false} AcknowledgesAt(es: seq<Escalation>, id: nat, actor: string, i: nat)
    requires LedgerRows.IdsAscend(es) && i <= |es|
    requires forall k :: 0 <= k < i ==> !IsOpen(es[k], id)
    requires i < |es| ==> IsOpen(es[i], id)
    ensures Acknowledged(es, id, actor) ==
      if i < |es| && es[i].takenBy.None? then es[i := es[i].(takenBy := Some(actor))] else es
  {
    if es != [] {
      var init, e := es[..|es|-1], es[|es|-1];
      if i < |init| {
        assert es[i].id < e.id;
        AcknowledgesAt(init, id, actor, i);
      } else {
        AcknowledgesAt(init, id, actor, |init|);
      }
    }
  }
}
