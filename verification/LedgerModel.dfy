/**
 The data-quality ledger: findings de-duplicated on (instance, seq), escalations
 that open, resolve and are pruned, and the history both tables forget.
 Times are epoch milliseconds.
 */
module LedgerModel {
  import Strings

  datatype Option<T> = None | Some(value: T)

  const FUTURE_SLACK_MS: real := 60_000.0
  const PRUNE_EVERY_MS: real := 600_000.0

  // The tunables, in milliseconds.
  datatype Config = Config(retention: real, window: real, cooldown: real,
                           fatalCount: int, failRate: real, minSamples: int)

  // The tunables as they are given: days and minutes.
  function Tunables(retentionDays: int, windowMinutes: int, cooldownMinutes: int,
                    fatalCount: int, failRate: real, minSamples: int): Config {
    Config((retentionDays * 86_400_000) as real, (windowMinutes * 60_000) as real, (cooldownMinutes * 60_000) as real,
           fatalCount, failRate, minSamples)
  }

  // The columns the rules read.
  datatype Finding = Finding(instance: string, number: nat, observedAt: real, provider: string,
                             passed: bool, fatal: nat)

  datatype Rule = FatalBurst | FailRate

  datatype Escalation = Escalation(id: nat, rule: Rule, provider: string, openedAt: real,
                                   count: nat, evaluated: nat,
                                   resolvedAt: Option<real>, takenBy: Option<string>)

  datatype Opening = Opening(rule: Rule, provider: string, at: real)

  datatype State = State(cfg: Config, findings: seq<Finding>, escalations: seq<Escalation>, lastPrune: real,
                         accepted: seq<Finding>,      // every finding that ever entered the table
                         history: seq<Opening>)       // every escalation that was ever opened

  datatype Event =
    | Ingest(batch: seq<Finding>, now: real)
    | Sweep(now: real)
    | Prune(now: real)
    | Acknowledge(id: nat, actor: string, now: real)

  // -------------------------------------------------------------------- ingest

  // Neither stale nor from the future.
  predicate Admissible(cfg: Config, f: Finding, now: real) {
    now - cfg.retention <= f.observedAt <= now + FUTURE_SLACK_MS
  }

  function Admitted(cfg: Config, batch: seq<Finding>, now: real): seq<Finding> {
    if batch == [] then []
    else
      var rest := Admitted(cfg, batch[..|batch|-1], now);
      if Admissible(cfg, batch[|batch|-1], now) then rest + [batch[|batch|-1]] else rest
  }

  predicate SameKey(a: Finding, b: Finding) {
    a.instance == b.instance && a.number == b.number
  }

  predicate HasKey(table: seq<Finding>, f: Finding) {
    exists i :: 0 <= i < |table| && SameKey(table[i], f)
  }

  // Inserts that do nothing on a conflict; the second component is what got in.
  function InsertAll(table: seq<Finding>, rows: seq<Finding>): (seq<Finding>, seq<Finding>) {
    if rows == [] then (table, [])
    else
      var (t, news) := InsertAll(table, rows[..|rows|-1]);
      var f := rows[|rows|-1];
      if HasKey(t, f) then (t, news) else (t + [f], news + [f])
  }

  function Providers(rows: seq<Finding>): (r: seq<string>)
    ensures Strings.Ascending(r)
    ensures forall p :: p in r <==> exists i :: 0 <= i < |rows| && rows[i].provider == p
  {
    if rows == [] then []
    else
      assert rows == rows[..|rows|-1] + [rows[|rows|-1]];
      Strings.Insert(rows[|rows|-1].provider, Providers(rows[..|rows|-1]))
  }

  // --------------------------------------------------------------------- rules

  datatype Stats = Stats(evaluated: nat, failed: nat, fatal: nat)

  function StatsOf(table: seq<Finding>, provider: string, since: real): Stats {
    if table == [] then Stats(0, 0, 0)
    else
      var s := StatsOf(table[..|table|-1], provider, since);
      var f := table[|table|-1];
      if f.provider == provider && f.observedAt >= since then
        Stats(s.evaluated + 1, s.failed + (if f.passed then 0 else 1), s.fatal + (if f.fatal > 0 then 1 else 0))
      else s
  }

  // The condition of a rule, the same wherever it is tested.
  predicate Holds(cfg: Config, rule: Rule, s: Stats)
    requires cfg.minSamples >= 1
  {
    match rule
    case FatalBurst => s.fatal >= cfg.fatalCount
    case FailRate => s.evaluated >= cfg.minSamples && s.failed as real / s.evaluated as real > cfg.failRate
  }

  predicate WithinCooldown(cfg: Config, es: seq<Escalation>, rule: Rule, provider: string, now: real) {
    exists i :: 0 <= i < |es| && es[i].rule == rule && es[i].provider == provider && es[i].openedAt > now - cfg.cooldown
  }

  // The id the table gives its next row: one above the highest it holds.
  function NextId(es: seq<Escalation>): nat {
    if es == [] then 1
    else
      var n := NextId(es[..|es|-1]);
      if es[|es|-1].id >= n then es[|es|-1].id + 1 else n
  }

  function TestRule(s: State, rule: Rule, provider: string, now: real): (s': State)
    requires s.cfg.minSamples >= 1
    ensures s'.(escalations := s.escalations, history := s.history) == s
  {
    var stats := StatsOf(s.findings, provider, now - s.cfg.window);
    if Holds(s.cfg, rule, stats) && !WithinCooldown(s.cfg, s.escalations, rule, provider, now) then
      var count := if rule == FatalBurst then stats.fatal else stats.failed;
      s.(escalations := s.escalations
           + [Escalation(NextId(s.escalations), rule, provider, now, count, stats.evaluated, None, None)],
         history := s.history + [Opening(rule, provider, now)])
    else s
  }

  function Evaluate(s: State, providers: seq<string>, now: real): (s': State)
    requires s.cfg.minSamples >= 1
    ensures s'.(escalations := s.escalations, history := s.history) == s
    decreases |providers|
  {
    if providers == [] then s
    else
      var before := Evaluate(s, providers[..|providers|-1], now);
      var p := providers[|providers|-1];
      TestRule(TestRule(before, FatalBurst, p, now), FailRate, p, now)
  }

  function ResolveOne(cfg: Config, findings: seq<Finding>, e: Escalation, now: real): Escalation
    requires cfg.minSamples >= 1
  {
    if e.resolvedAt.None? && !Holds(cfg, e.rule, StatsOf(findings, e.provider, now - cfg.window))
    then e.(resolvedAt := Some(now)) else e
  }

  function Resolve(cfg: Config, findings: seq<Finding>, es: seq<Escalation>, now: real): (r: seq<Escalation>)
    requires cfg.minSamples >= 1
    ensures |r| == |es|
    ensures forall i :: 0 <= i < |es| ==> r[i] == ResolveOne(cfg, findings, es[i], now)
  {
    if es == [] then []
    else Resolve(cfg, findings, es[..|es|-1], now) + [ResolveOne(cfg, findings, es[|es|-1], now)]
  }

  // ----------------------------------------------------------------- retention

  function KeepFindings(table: seq<Finding>, cutoff: real): seq<Finding> {
    if table == [] then []
    else
      var rest := KeepFindings(table[..|table|-1], cutoff);
      if table[|table|-1].observedAt < cutoff then rest else rest + [table[|table|-1]]
  }

  function KeepEscalations(es: seq<Escalation>, cutoff: real): seq<Escalation> {
    if es == [] then []
    else
      var rest := KeepEscalations(es[..|es|-1], cutoff);
      var e := es[|es|-1];
      if e.resolvedAt.Some? && e.resolvedAt.value < cutoff then rest else rest + [e]
  }

  function Pruned(s: State, now: real): State {
    s.(findings := KeepFindings(s.findings, now - s.cfg.retention),
       escalations := KeepEscalations(s.escalations, now - s.cfg.retention),
       lastPrune := now)
  }

  // ------------------------------------------------------------------- calls

  function Swept(s: State, now: real): State
    requires s.cfg.minSamples >= 1
  {
    s.(escalations := Resolve(s.cfg, s.findings, s.escalations, now))
  }

  function Stored(s: State, batch: seq<Finding>, now: real): State {
    var (t, news) := InsertAll(s.findings, Admitted(s.cfg, batch, now));
    s.(findings := t, accepted := s.accepted + news)
  }

  // `ingest` up to its closing prune.
  function Judged(s: State, batch: seq<Finding>, now: real): State
    requires s.cfg.minSamples >= 1
  {
    Swept(Evaluate(Stored(s, batch, now), Providers(Admitted(s.cfg, batch, now)), now), now)
  }

  function Ingested(s: State, batch: seq<Finding>, now: real): State
    requires s.cfg.minSamples >= 1
  {
    var j := Judged(s, batch, now);
    if now - j.lastPrune >= PRUNE_EVERY_MS then Pruned(j, now) else j
  }

  function Acknowledged(es: seq<Escalation>, id: nat, actor: string): seq<Escalation> {
    if es == [] then []
    else
      var e := es[|es|-1];
      Acknowledged(es[..|es|-1], id, actor)
      + [if e.id == id && e.resolvedAt.None? && e.takenBy.None? then e.(takenBy := Some(actor)) else e]
  }

  function Next(s: State, e: Event): (s': State)
    requires s.cfg.minSamples >= 1
    ensures s'.cfg == s.cfg
  {
    match e
    case Ingest(batch, now) => Ingested(s, batch, now)
    case Sweep(now) => Swept(s, now)
    case Prune(now) => Pruned(s, now)
    case Acknowledge(id, actor, now) => s.(escalations := Acknowledged(s.escalations, id, actor))
  }

  function Run(s: State, es: seq<Event>): (s': State)
    requires s.cfg.minSamples >= 1
    ensures s'.cfg == s.cfg
    decreases |es|
  {
    if es == [] then s else Next(Run(s, es[..|es|-1]), es[|es|-1])
  }

  function Init(cfg: Config): State {
    State(cfg, [], [], 0.0, [], [])
  }

  // The clock never goes back.
  predicate Timed(es: seq<Event>) {
    forall i, j :: 0 <= i < j < |es| ==> es[i].now <= es[j].now
  }

  lemma {:induction false} KeptFindings(table: seq<Finding>, cutoff: real)
    ensures forall f :: f in KeepFindings(table, cutoff) <==> f in table && f.observedAt >= cutoff
  {
    if table != [] {
      KeptFindings(table[..|table|-1], cutoff);
      assert table == table[..|table|-1] + [table[|table|-1]];
    }
  }

  lemma {:induction false} KeptRows(es: seq<Escalation>, cutoff: real)
    ensures forall e :: e in KeepEscalations(es, cutoff) <==>
      e in es && !(e.resolvedAt.Some? && e.resolvedAt.value < cutoff)
  {
    if es != [] {
      KeptRows(es[..|es|-1], cutoff);
      assert es == es[..|es|-1] + [es[|es|-1]];
    }
  }
}
