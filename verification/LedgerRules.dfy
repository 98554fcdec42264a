/**
 What the two rules say, in numbers of rows: when a push opens an escalation, what is
 written into it, and when one is resolved.
 */
module LedgerRules {
  import opened LedgerModel
  import opened LedgerConditions
  import Strings

  // The rows of a provider in the window that ends now, ...
  function InWindow(cfg: Config, table: seq<Finding>, provider: string, now: real): set<nat> {
    set i: nat | i < |table| && table[i].provider == provider && table[i].observedAt >= now - cfg.window
  }

  // ... those of them that failed their contract, ...
  function FailedRows(cfg: Config, table: seq<Finding>, provider: string, now: real): set<nat> {
    set i: nat | i < |table| && i in InWindow(cfg, table, provider, now) && !table[i].passed
  }

  // ... and those with a fatal finding.
  function FatalRows(cfg: Config, table: seq<Finding>, provider: string, now: real): set<nat> {
    set i: nat | i < |table| && i in InWindow(cfg, table, provider, now) && table[i].fatal > 0
  }

  // The condition of a rule: enough fatal rows, or enough rows of which more than the given
  // share failed.
  predicate Met(cfg: Config, table: seq<Finding>, rule: Rule, provider: string, now: real) {
    match rule
    case FatalBurst => |FatalRows(cfg, table, provider, now)| >= cfg.fatalCount
    case FailRate =>
      && |InWindow(cfg, table, provider, now)| >= cfg.minSamples
      && |FailedRows(cfg, table, provider, now)| as real > cfg.failRate * |InWindow(cfg, table, provider, now)| as real
  }

  // How many rows a rule counts against the provider.
  function Against(cfg: Config, table: seq<Finding>, rule: Rule, provider: string, now: real): nat {
    match rule
    case FatalBurst => |FatalRows(cfg, table, provider, now)|
    case FailRate => |FailedRows(cfg, table, provider, now)|
  }

  // No row of that rule and provider was opened within the cooldown.
  ghost predicate Quiet(cfg: Config, es: seq<Escalation>, rule: Rule, provider: string, now: real) {
    forall i :: 0 <= i < |es| && es[i].rule == rule && es[i].provider == provider ==>
      es[i].openedAt <= now - cfg.cooldown
  }

  // ------------------------------------------------------------------- counting

  lemma WindowOfMore(cfg: Config, init: seq<Finding>, f: Finding, provider: string, now: real)
    ensures var n, t := |init|, init + [f];
      var counted := f.provider == provider && f.observedAt >= now - cfg.window;
      && InWindow(cfg, t, provider, now) == InWindow(cfg, init, provider, now) + (if counted then {n} else {})
      && FailedRows(cfg, t, provider, now)
         == FailedRows(cfg, init, provider, now) + (if counted && !f.passed then {n} else {})
      && FatalRows(cfg, t, provider, now)
         == FatalRows(cfg, init, provider, now) + (if counted && f.fatal > 0 then {n} else {})
      && n !in InWindow(cfg, init, provider, now)
      && n !in FailedRows(cfg, init, provider, now) && n !in FatalRows(cfg, init, provider, now)
  {
    var n, t := |init|, init + [f];
    assert t[n] == f && forall i :: 0 <= i < n ==> t[i] == init[i];
  }

  lemma CountsOfMore(cfg: Config, init: seq<Finding>, f: Finding, provider: string, now: real)
    ensures var t, counted := init + [f], f.provider == provider && f.observedAt >= now - cfg.window;
      && |InWindow(cfg, t, provider, now)| == |InWindow(cfg, init, provider, now)| + (if counted then 1 else 0)
      && |FailedRows(cfg, t, provider, now)|
         == |FailedRows(cfg, init, provider, now)| + (if counted && !f.passed then 1 else 0)
      && |FatalRows(cfg, t, provider, now)|
         == |FatalRows(cfg, init, provider, now)| + (if counted && f.fatal > 0 then 1 else 0)
  {
    hide InWindow, FailedRows, FatalRows;
    WindowOfMore(cfg, init, f, provider, now);
  }

  lemma {:induction false} StatsAreCounts(cfg: Config, table: seq<Finding>, provider: string, now: real)
    ensures StatsOf(table, provider, now - cfg.window)
         == Stats(|InWindow(cfg, table, provider, now)|, |FailedRows(cfg, table, provider, now)|,
                  |FatalRows(cfg, table, provider, now)|)
  {
    hide InWindow, FailedRows, FatalRows;
    if |table| == 0 {
      NoRows(cfg, table, provider, now);
    } else {
      var init, f := table[..|table|-1], table[|table|-1];
      StatsAreCounts(cfg, init, provider, now);
      CountsOfMore(cfg, init, f, provider, now);
      assert table == init + [f];
    }
  }

  lemma NoRows(cfg: Config, table: seq<Finding>, provider: string, now: real)
    requires |table| == 0
    ensures InWindow(cfg, table, provider, now) == {}
    ensures FailedRows(cfg, table, provider, now) == {} && FatalRows(cfg, table, provider, now) == {}
  {
  }

  // A share above the rate is more rows than the rate allows.
  lemma ShareIsCount(failed: nat, evaluated: nat, rate: real)
    requires evaluated > 0
    ensures failed as real / evaluated as real > rate <==> failed as real > rate * evaluated as real
  {
    var share, n := failed as real / evaluated as real, evaluated as real;
    assert share * n == failed as real;
    if share > rate { Larger(share, rate, n); } else { NotLarger(share, rate, n); }
  }

  lemma Larger(a: real, b: real, n: real)
    requires a > b && n > 0.0
    ensures a * n > b * n
  {
  }

  lemma NotLarger(a: real, b: real, n: real)
    requires a <= b && n > 0.0
    ensures a * n <= b * n
  {
  }

  lemma HoldsIffMet(cfg: Config, table: seq<Finding>, rule: Rule, provider: string, now: real)
    requires cfg.minSamples >= 1
    ensures Holds(cfg, rule, StatsOf(table, provider, now - cfg.window)) <==> Met(cfg, table, rule, provider, now)
  {
    hide InWindow, FailedRows, FatalRows, StatsOf;
    StatsAreCounts(cfg, table, provider, now);
    var n := |InWindow(cfg, table, provider, now)|;
    if n > 0 { ShareIsCount(|FailedRows(cfg, table, provider, now)|, n, cfg.failRate); }
  }

  // ---------------------------------------------------------------- what is opened

  // What a rule that fires writes.
  ghost predicate Written(cfg: Config, table: seq<Finding>, e: Escalation, now: real) {
    && e.openedAt == now && e.resolvedAt == None && e.takenBy == None
    && e.count == Against(cfg, table, e.rule, e.provider, now)
    && e.evaluated == |InWindow(cfg, table, e.provider, now)|
  }

  // One of the rows from `n` on is of that rule and provider.
  ghost predicate HasNew(es: seq<Escalation>, n: nat, rule: Rule, provider: string) {
    exists i :: n <= i < |es| && es[i].rule == rule && es[i].provider == provider
  }

  ghost predicate AllWritten(cfg: Config, table: seq<Finding>, es: seq<Escalation>, n: nat, now: real) {
    forall i :: n <= i < |es| ==> Written(cfg, table, es[i], now)
  }

  lemma TestOpens(s: State, rule: Rule, provider: string, now: real)
    requires s.cfg.minSamples >= 1
    ensures var es, es' := s.escalations, TestRule(s, rule, provider, now).escalations;
      var fires := Met(s.cfg, s.findings, rule, provider, now) && Quiet(s.cfg, es, rule, provider, now);
      && (!fires ==> es' == es)
      && (fires ==> |es'| == |es| + 1 && es'[..|es|] == es && es'[|es|].rule == rule && es'[|es|].provider == provider
                    && Written(s.cfg, s.findings, es'[|es|], now))
  {
    hide Met, StatsOf, InWindow, FailedRows, FatalRows;
    HoldsIffMet(s.cfg, s.findings, rule, provider, now);
    StatsAreCounts(s.cfg, s.findings, provider, now);
  }

  // What a growing table of escalations says of one rule and provider: a row was opened
  // exactly if `fired`, and if none was the cooldown is as quiet as it was.
  ghost predicate Told(cfg: Config, table: seq<Finding>, es: seq<Escalation>, n: nat, rule: Rule, provider: string,
                       now: real, fired: bool)
  {
    && n <= |es| && (HasNew(es, n, rule, provider) <==> fired)
    && (!fired ==> (Quiet(cfg, es, rule, provider, now) <==> Quiet(cfg, es[..n], rule, provider, now)))
    && AllWritten(cfg, table, es, n, now)
  }

  lemma ToldMore(cfg: Config, table: seq<Finding>, es: seq<Escalation>, e: Escalation, n: nat,
                 rule: Rule, provider: string, now: real, fired: bool)
    requires Told(cfg, table, es, n, rule, provider, now, fired) && Written(cfg, table, e, now)
    ensures Told(cfg, table, es + [e], n, rule, provider, now, fired || (e.rule == rule && e.provider == provider))
  {
    hide Written;
    var es' := es + [e];
    assert es'[..n] == es[..n];
    assert es'[|es|] == e && forall i :: 0 <= i < |es| ==> es'[i] == es[i];
    if HasNew(es, n, rule, provider) {
      var i :| n <= i < |es| && es[i].rule == rule && es[i].provider == provider;
      assert es'[i].rule == rule && es'[i].provider == provider;
    }
    if HasNew(es', n, rule, provider) && !(e.rule == rule && e.provider == provider) {
      var i :| n <= i < |es'| && es'[i].rule == rule && es'[i].provider == provider;
      assert es[i] == es'[i];
    }
    if !(fired || (e.rule == rule && e.provider == provider)) {
      if Quiet(cfg, es, rule, provider, now) {
        forall i | 0 <= i < |es'| && es'[i].rule == rule && es'[i].provider == provider
          ensures es'[i].openedAt <= now - cfg.cooldown
        {
          assert es'[i] == es[i];
        }
      }
      if Quiet(cfg, es', rule, provider, now) {
        forall i | 0 <= i < |es| && es[i].rule == rule && es[i].provider == provider
          ensures es[i].openedAt <= now - cfg.cooldown
        {
          assert es'[i] == es[i];
        }
      }
    }
  }

  // One test, of any rule and provider, seen from `rule` and `provider`.
  lemma TestTold(s: State, r: Rule, q: string, now: real, n: nat, rule: Rule, provider: string, fired: bool)
    requires s.cfg.minSamples >= 1 && Told(s.cfg, s.findings, s.escalations, n, rule, provider, now, fired)
    requires fired ==> r != rule || q != provider
    ensures var mine := r == rule && q == provider && Met(s.cfg, s.findings, rule, provider, now)
                        && Quiet(s.cfg, s.escalations[..n], rule, provider, now);
      Told(s.cfg, s.findings, TestRule(s, r, q, now).escalations, n, rule, provider, now, fired || mine)
  {
    hide Met, Quiet, Written, TestRule, AllWritten, HasNew;
    TestOpens(s, r, q, now);
    var es, es' := s.escalations, TestRule(s, r, q, now).escalations;
    if es' != es {
      assert es' == es + [es'[|es|]];
      ToldMore(s.cfg, s.findings, es, es'[|es|], n, rule, provider, now, fired);
    }
  }

  predicate Apart(ps: seq<string>) {
    forall i, j :: 0 <= i < j < |ps| ==> ps[i] != ps[j]
  }

  lemma {:induction false} EvaluateTold(s: State, ps: seq<string>, now: real, rule: Rule, provider: string)
    requires s.cfg.minSamples >= 1 && Apart(ps)
    ensures Told(s.cfg, s.findings, Evaluate(s, ps, now).escalations, |s.escalations|, rule, provider, now,
                 provider in ps && Met(s.cfg, s.findings, rule, provider, now)
                 && Quiet(s.cfg, s.escalations, rule, provider, now))
    ensures s.escalations <= Evaluate(s, ps, now).escalations
    decreases |ps|
  {
    hide Met, Quiet, Told, TestRule;
    var n := |s.escalations|;
    if ps == [] {
      NothingTold(s.cfg, s.findings, s.escalations, rule, provider, now);
    } else {
      var init, q := ps[..|ps|-1], ps[|ps|-1];
      assert ps == init + [q] && q !in init;
      EvaluateTold(s, init, now, rule, provider);
      EvaluateAppends(s, ps, now);
      EvaluateAppends(s, init, now);
      var a := Evaluate(s, init, now);
      var fired := provider in init && Met(s.cfg, s.findings, rule, provider, now)
                   && Quiet(s.cfg, s.escalations, rule, provider, now);
      assert a.escalations[..n] == s.escalations;
      TestTold(a, FatalBurst, q, now, n, rule, provider, fired);
      var b := TestRule(a, FatalBurst, q, now);
      TestKeepsFirst(a, FatalBurst, q, now, n);
      var mine := rule == FatalBurst && q == provider && Met(s.cfg, s.findings, rule, provider, now)
                  && Quiet(s.cfg, s.escalations, rule, provider, now);
      TestTold(b, FailRate, q, now, n, rule, provider, fired || mine);
    }
  }

  lemma TestKeepsFirst(s: State, r: Rule, q: string, now: real, n: nat)
    requires s.cfg.minSamples >= 1 && n <= |s.escalations|
    ensures n <= |TestRule(s, r, q, now).escalations| && TestRule(s, r, q, now).escalations[..n] == s.escalations[..n]
  {
  }

  lemma NothingTold(cfg: Config, table: seq<Finding>, es: seq<Escalation>, rule: Rule, provider: string, now: real)
    ensures Told(cfg, table, es, |es|, rule, provider, now, false)
  {
    assert es[..|es|] == es;
  }

  lemma AscendingApart(ps: seq<string>)
    requires Strings.Ascending(ps)
    ensures Apart(ps)
  {
    forall i, j | 0 <= i < j < |ps| ensures ps[i] != ps[j] { Strings.LessAsymmetric(ps[i], ps[j]); }
  }

  // The batch has a row of the provider that is neither stale nor from the future.
  ghost predicate Pushes(cfg: Config, batch: seq<Finding>, provider: string, now: real) {
    exists i :: 0 <= i < |batch| && batch[i].provider == provider
      && now - cfg.retention <= batch[i].observedAt <= now + 60_000.0
  }

  lemma {:induction false} AdmittedIff(cfg: Config, batch: seq<Finding>, now: real, f: Finding)
    ensures f in Admitted(cfg, batch, now) <==> f in batch && now - cfg.retention <= f.observedAt <= now + 60_000.0
  {
    if batch != [] {
      AdmittedIff(cfg, batch[..|batch|-1], now, f);
      assert batch == batch[..|batch|-1] + [batch[|batch|-1]];
    }
  }

  lemma PushesIff(cfg: Config, batch: seq<Finding>, provider: string, now: real)
    ensures provider in Providers(Admitted(cfg, batch, now)) <==> Pushes(cfg, batch, provider, now)
  {
    var rows := Admitted(cfg, batch, now);
    if i :| 0 <= i < |rows| && rows[i].provider == provider {
      AdmittedIff(cfg, batch, now, rows[i]);
      assert rows[i] in rows;
      var j :| 0 <= j < |batch| && batch[j] == rows[i];
      assert batch[j].provider == provider;
    }
    if i :| 0 <= i < |batch| && batch[i].provider == provider
            && now - cfg.retention <= batch[i].observedAt <= now + 60_000.0 {
      AdmittedIff(cfg, batch, now, batch[i]);
      assert batch[i] in rows;
      var j :| 0 <= j < |rows| && rows[j] == batch[i];
      assert rows[j].provider == provider;
    }
  }

  // A push opens an escalation of a rule for a provider exactly if it brings a row of that
  // provider, the stored rows meet the condition and none was opened within the cooldown;
  // what it writes are the numbers of rows it went by.
  lemma OpensIff(s: State, batch: seq<Finding>, now: real, rule: Rule, provider: string)
    requires s.cfg.minSamples >= 1
    ensures var table, opens := Stored(s, batch, now).findings, Opened(s, batch, now);
      && ((exists e :: e in opens && e.rule == rule && e.provider == provider) <==>
            Pushes(s.cfg, batch, provider, now) && Met(s.cfg, table, rule, provider, now)
            && Quiet(s.cfg, s.escalations, rule, provider, now))
      && (forall e :: e in opens ==> Written(s.cfg, table, e, now))
  {
    hide Met, Quiet, Written, Evaluate;
    var stored, ps := Stored(s, batch, now), Providers(Admitted(s.cfg, batch, now));
    AscendingApart(ps);
    PushesIff(s.cfg, batch, provider, now);
    EvaluateTold(stored, ps, now, rule, provider);
    var es, n := Evaluate(stored, ps, now).escalations, |s.escalations|;
    var opens := Opened(s, batch, now);
    assert opens == es[n..];
    if e :| e in opens && e.rule == rule && e.provider == provider {
      var i :| 0 <= i < |opens| && opens[i] == e;
      assert es[n+i] == e;
    }
    if i :| n <= i < |es| && es[i].rule == rule && es[i].provider == provider { assert opens[i-n] == es[i]; }
    forall e | e in opens ensures Written(s.cfg, stored.findings, e, now) {
      var i :| 0 <= i < |opens| && opens[i] == e;
      assert es[n+i] == e;
    }
  }

  // -------------------------------------------------------------- what is resolved

  // A row is resolved exactly if it was open and its condition is no longer met, and nothing
  // else of it changes.
  lemma ResolvedIff(s: State, now: real, i: nat)
    requires s.cfg.minSamples >= 1 && i < |s.escalations|
    ensures var e, r := s.escalations[i], Swept(s, now).escalations[i];
      r == if e.resolvedAt.None? && !Met(s.cfg, s.findings, e.rule, e.provider, now)
           then e.(resolvedAt := Some(now)) else e
  {
    hide Met, Holds, StatsOf;
    var e := s.escalations[i];
    assert Swept(s, now).escalations[i] == ResolveOne(s.cfg, s.findings, e, now);
    HoldsIffMet(s.cfg, s.findings, e.rule, e.provider, now);
  }

  // ----------------------------------------------------------------- what is stored

  // Table `t` is the old table with `news` after it: pushed rows with keys that were not there;
  // and it has the key of every pushed row.
  ghost predicate Inserted(table: seq<Finding>, rows: seq<Finding>, t: seq<Finding>, news: seq<Finding>) {
    t == table + news && NewFrom(|table|, rows, t) && forall f :: f in rows ==> HasKey(t, f)
  }

  ghost predicate NewFrom(n: nat, rows: seq<Finding>, t: seq<Finding>) {
    forall i :: n <= i < |t| ==> t[i] in rows && !HasKey(t[..i], t[i])
  }

  lemma NewFromMore(n: nat, rows: seq<Finding>, t: seq<Finding>, f: Finding)
    requires NewFrom(n, rows, t) && n <= |t|
    ensures NewFrom(n, rows + [f], t)
    ensures !HasKey(t, f) ==> NewFrom(n, rows + [f], t + [f])
  {
    hide HasKey;
    var u := t + [f];
    if !HasKey(t, f) {
      forall i | n <= i < |u| ensures u[i] in rows + [f] && !HasKey(u[..i], u[i]) {
        if i < |t| { assert u[i] == t[i] && u[..i] == t[..i]; } else { assert u[..i] == t; }
      }
    }
  }

  lemma {:induction false} InsertedRows(table: seq<Finding>, rows: seq<Finding>)
    ensures var (t, news) := InsertAll(table, rows); Inserted(table, rows, t, news)
  {
    hide Inserted, HasKey;
    if rows == [] {
      NothingInserted(table, rows);
    } else {
      var init, f := rows[..|rows|-1], rows[|rows|-1];
      InsertedRows(table, init);
      assert rows == init + [f];
      InsertedMore(table, init, InsertAll(table, init).0, InsertAll(table, init).1, f);
    }
  }

  lemma NothingInserted(table: seq<Finding>, rows: seq<Finding>)
    requires rows == []
    ensures Inserted(table, rows, table, [])
  {
  }

  lemma KeysOfMore(t: seq<Finding>, f: Finding, g: Finding)
    ensures HasKey(t, g) ==> HasKey(t + [f], g)
    ensures HasKey(t + [f], f)
  {
    var u := t + [f];
    if k :| 0 <= k < |t| && SameKey(t[k], g) { assert SameKey(u[k], g); }
    assert SameKey(u[|t|], f);
  }

  lemma InsertedMore(table: seq<Finding>, rows: seq<Finding>, t: seq<Finding>, news: seq<Finding>, f: Finding)
    requires Inserted(table, rows, t, news)
    ensures Inserted(table, rows + [f], if HasKey(t, f) then t else t + [f], if HasKey(t, f) then news else news + [f])
  {
    hide HasKey, NewFrom;
    NewFromMore(|table|, rows, t, f);
    forall g | g in rows + [f] ensures HasKey(if HasKey(t, f) then t else t + [f], g) { KeysOfMore(t, f, g); }
  }

  // A push prunes exactly if the last prune was ten minutes ago or more; then no finding from
  // before the retention is left, nor an escalation resolved before it, and nothing else goes.
  lemma PrunesIff(s: State, batch: seq<Finding>, now: real)
    requires s.cfg.minSamples >= 1
    ensures var r, judged, cutoff := Ingested(s, batch, now), Judged(s, batch, now), now - s.cfg.retention;
      if now - s.lastPrune >= 600_000.0 then
        && r.lastPrune == now
        && (forall f :: f in r.findings <==> f in judged.findings && f.observedAt >= cutoff)
        && (forall e :: e in r.escalations <==>
              e in judged.escalations && (e.resolvedAt.None? || e.resolvedAt.value >= cutoff))
      else r == judged && r.lastPrune == s.lastPrune
  {
    hide Judged;
    var j := Judged(s, batch, now);
    KeptFindings(j.findings, now - s.cfg.retention);
    KeptRows(j.escalations, now - s.cfg.retention);
    JudgedKeeps(s, batch, now);
  }

  lemma JudgedKeeps(s: State, batch: seq<Finding>, now: real)
    requires s.cfg.minSamples >= 1
    ensures Judged(s, batch, now).lastPrune == s.lastPrune && Judged(s, batch, now).cfg == s.cfg
  {
  }
}
