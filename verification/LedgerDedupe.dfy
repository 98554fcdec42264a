/**
 De-duplication that outlives the rows: a finding pushed again after its row was
 pruned is refused as stale instead.
 */
module LedgerDedupe {
  import opened LedgerModel

  // Every push of a finding carries the time it was first observed at.
  ghost predicate Stamped(stamp: (string, nat) -> real, f: Finding) {
    f.observedAt == stamp(f.instance, f.number)
  }

  ghost predicate Honest(stamp: (string, nat) -> real, es: seq<Event>) {
    forall i :: 0 <= i < |es| && es[i].Ingest? ==> AllStamped(stamp, es[i].batch)
  }

  ghost predicate AllStamped(stamp: (string, nat) -> real, fs: seq<Finding>) {
    forall f :: f in fs ==> Stamped(stamp, f)
  }

  // No two findings on the list have the same key.
  ghost predicate Once(fs: seq<Finding>) {
    forall i, j :: 0 <= i < j < |fs| ==> !SameKey(fs[i], fs[j])
  }

  ghost predicate StoredOrStale(cfg: Config, table: seq<Finding>, f: Finding, t: real) {
    HasKey(table, f) || f.observedAt < t - cfg.retention
  }

  ghost predicate Inv(cfg: Config, stamp: (string, nat) -> real, table: seq<Finding>, accepted: seq<Finding>, t: real) {
    && Once(accepted) && AllStamped(stamp, accepted)
    && (forall f :: f in table ==> f in accepted)
    && (forall i :: 0 <= i < |accepted| ==> StoredOrStale(cfg, table, accepted[i], t))
  }

  lemma {:induction false} AdmittedRows(cfg: Config, batch: seq<Finding>, now: real)
    ensures forall f :: f in Admitted(cfg, batch, now) <==> f in batch && Admissible(cfg, f, now)
  {
    if batch != [] {
      AdmittedRows(cfg, batch[..|batch|-1], now);
      assert batch == batch[..|batch|-1] + [batch[|batch|-1]];
    }
  }

  lemma KeyCarries(table: seq<Finding>, a: Finding, f: Finding)
    ensures SameKey(a, f) && HasKey(table, a) ==> HasKey(table, f)
  {
    if SameKey(a, f) && HasKey(table, a) {
      var k :| 0 <= k < |table| && SameKey(table[k], a);
      assert SameKey(table[k], f);
    }
  }

  // One insert that found no conflict.
  lemma EntryKeepsInv(cfg: Config, stamp: (string, nat) -> real, table: seq<Finding>, accepted: seq<Finding>,
                      f: Finding, now: real)
    requires Inv(cfg, stamp, table, accepted, now) && Stamped(stamp, f) && Admissible(cfg, f, now)
    requires !HasKey(table, f)
    ensures Inv(cfg, stamp, table + [f], accepted + [f], now)
  {
    forall i | 0 <= i < |accepted| ensures !SameKey(accepted[i], f) {
      assert StoredOrStale(cfg, table, accepted[i], now) && accepted[i] in accepted;
      KeyCarries(table, accepted[i], f);
    }
    forall i | 0 <= i < |accepted + [f]| ensures StoredOrStale(cfg, table + [f], (accepted + [f])[i], now) {
      if i < |accepted| {
        assert StoredOrStale(cfg, table, accepted[i], now);
        if HasKey(table, accepted[i]) {
          var k :| 0 <= k < |table| && SameKey(table[k], accepted[i]);
          assert SameKey((table + [f])[k], accepted[i]);
        }
      } else {
        assert SameKey((table + [f])[|table|], f);
      }
    }
  }

  lemma {:induction false} InsertKeepsInv(cfg: Config, stamp: (string, nat) -> real, table: seq<Finding>,
                                          accepted: seq<Finding>, rows: seq<Finding>, now: real)
    requires Inv(cfg, stamp, table, accepted, now) && AllStamped(stamp, rows)
    requires forall f :: f in rows ==> Admissible(cfg, f, now)
    ensures Inv(cfg, stamp, InsertAll(table, rows).0, accepted + InsertAll(table, rows).1, now)
  {
    if rows == [] {
      assert accepted + [] == accepted;
    } else {
      var init, f := rows[..|rows|-1], rows[|rows|-1];
      assert f in rows && forall g :: g in init ==> g in rows;
      InsertKeepsInv(cfg, stamp, table, accepted, init, now);
      var (t, news) := InsertAll(table, init);
      if !HasKey(t, f) {
        EntryKeepsInv(cfg, stamp, t, accepted + news, f, now);
        assert accepted + (news + [f]) == (accepted + news) + [f];
      }
    }
  }

  lemma PruneKeepsInv(cfg: Config, stamp: (string, nat) -> real, table: seq<Finding>, accepted: seq<Finding>, now: real)
    requires Inv(cfg, stamp, table, accepted, now)
    ensures Inv(cfg, stamp, KeepFindings(table, now - cfg.retention), accepted, now)
  {
    var kept := KeepFindings(table, now - cfg.retention);
    KeptFindings(table, now - cfg.retention);
    forall i | 0 <= i < |accepted| ensures StoredOrStale(cfg, kept, accepted[i], now) {
      var a := accepted[i];
      assert a in accepted && StoredOrStale(cfg, table, a, now);
      if a.observedAt >= now - cfg.retention {
        var k :| 0 <= k < |table| && SameKey(table[k], a);
        assert table[k] in table && Stamped(stamp, table[k]) && Stamped(stamp, a);
        assert table[k] in kept;
        var j :| 0 <= j < |kept| && kept[j] == table[k];
      }
    }
  }

  lemma Later(cfg: Config, stamp: (string, nat) -> real, table: seq<Finding>, accepted: seq<Finding>, t: real, t': real)
    requires Inv(cfg, stamp, table, accepted, t) && t <= t'
    ensures Inv(cfg, stamp, table, accepted, t')
  {
    forall i | 0 <= i < |accepted| ensures StoredOrStale(cfg, table, accepted[i], t') {
      assert StoredOrStale(cfg, table, accepted[i], t);
    }
  }

  // What a call does to the table of findings and the log of entries.
  lemma TableAfter(s: State, e: Event)
    requires s.cfg.minSamples >= 1
    ensures var s' := Next(s, e);
      match e
      case Ingest(batch, now) =>
        var (t, news) := InsertAll(s.findings, Admitted(s.cfg, batch, now));
        s'.accepted == s.accepted + news
        && s'.findings == if now - s.lastPrune >= PRUNE_EVERY_MS then KeepFindings(t, now - s.cfg.retention) else t
      case Prune(now) => s'.findings == KeepFindings(s.findings, now - s.cfg.retention) && s'.accepted == s.accepted
      case _ => s'.findings == s.findings && s'.accepted == s.accepted
  {
  }

  lemma NextKeepsInv(s: State, stamp: (string, nat) -> real, e: Event, t: real)
    requires s.cfg.minSamples >= 1 && t <= e.now && (e.Ingest? ==> AllStamped(stamp, e.batch))
    requires Inv(s.cfg, stamp, s.findings, s.accepted, t)
    ensures var s' := Next(s, e); Inv(s.cfg, stamp, s'.findings, s'.accepted, e.now)
  {
    hide Next;
    TableAfter(s, e);
    Later(s.cfg, stamp, s.findings, s.accepted, t, e.now);
    match e
    case Ingest(batch, now) =>
      var rows := Admitted(s.cfg, batch, now);
      AdmittedRows(s.cfg, batch, now);
      InsertKeepsInv(s.cfg, stamp, s.findings, s.accepted, rows, now);
      PruneKeepsInv(s.cfg, stamp, InsertAll(s.findings, rows).0, s.accepted + InsertAll(s.findings, rows).1, now);
    case Prune(now) =>
      PruneKeepsInv(s.cfg, stamp, s.findings, s.accepted, now);
    case _ =>
  }

  lemma {:induction false} RunKeepsInv(cfg: Config, stamp: (string, nat) -> real, es: seq<Event>)
    requires cfg.minSamples >= 1 && Timed(es) && Honest(stamp, es)
    ensures var s := Run(Init(cfg), es);
      Inv(cfg, stamp, s.findings, s.accepted, if es == [] then 0.0 else es[|es|-1].now)
    decreases |es|
  {
    hide Next;
    if es != [] {
      var init, e := es[..|es|-1], es[|es|-1];
      assert forall i :: 0 <= i < |init| ==> init[i] == es[i];
      RunKeepsInv(cfg, stamp, init);
      var s := Run(Init(cfg), init);
      var t := if init == [] then e.now else init[|init|-1].now;
      assert Inv(cfg, stamp, s.findings, s.accepted, t);
      NextKeepsInv(s, stamp, e, t);
    }
  }

  // However often a batch is pushed, and whatever was pruned in between, a finding
  // enters the ledger once.
  lemma EntersOnce(cfg: Config, stamp: (string, nat) -> real, es: seq<Event>)
    requires cfg.minSamples >= 1 && Timed(es) && Honest(stamp, es)
    ensures Once(Run(Init(cfg), es).accepted)
  {
    RunKeepsInv(cfg, stamp, es);
  }

  // ------------------------------------------------------- pushing a batch again

  ghost predicate Known(fs: seq<Finding>, rows: seq<Finding>) {
    forall f :: f in rows ==> HasKey(fs, f)
  }

  lemma {:induction false} InsertGrows(table: seq<Finding>, rows: seq<Finding>)
    ensures table <= InsertAll(table, rows).0
    ensures Known(InsertAll(table, rows).0, rows)
  {
    if rows != [] {
      var init, f := rows[..|rows|-1], rows[|rows|-1];
      InsertGrows(table, init);
      var t, r := InsertAll(table, init).0, InsertAll(table, rows).0;
      assert rows == init + [f];
      forall g | g in rows ensures HasKey(r, g) {
        if g in init { HasKeyGrows(t, r, g); } else if t != r { assert SameKey(r[|t|], g); }
      }
    }
  }

  lemma HasKeyGrows(t: seq<Finding>, r: seq<Finding>, f: Finding)
    requires t <= r && HasKey(t, f)
    ensures HasKey(r, f)
  {
    var k :| 0 <= k < |t| && SameKey(t[k], f);
    assert SameKey(r[k], f);
  }

  // The inserts add nothing exactly when every key is there already.
  lemma {:induction false} NothingToInsert(table: seq<Finding>, rows: seq<Finding>)
    ensures InsertAll(table, rows).1 == [] <==> Known(table, rows)
    ensures InsertAll(table, rows).1 == [] ==> InsertAll(table, rows).0 == table
  {
    if rows != [] {
      var init, f := rows[..|rows|-1], rows[|rows|-1];
      NothingToInsert(table, init);
      assert rows == init + [f];
    }
  }

  lemma {:induction false} AcceptedGrows(s: State, es: seq<Event>, k: nat)
    requires s.cfg.minSamples >= 1 && k <= |es|
    ensures Run(s, es[..k]).accepted <= Run(s, es).accepted
    decreases |es|
  {
    hide Next;
    if k < |es| {
      var init := es[..|es|-1];
      assert init[..k] == es[..k];
      AcceptedGrows(s, init, k);
      TableAfter(Run(s, init), es[|es|-1]);
    } else {
      assert es[..k] == es;
    }
  }

  // After a push, whatever of it was admissible has entered, now or before.
  lemma PushEnters(s: State, stamp: (string, nat) -> real, batch: seq<Finding>, now: real, t: real)
    requires s.cfg.minSamples >= 1 && t <= now && AllStamped(stamp, batch)
    requires Inv(s.cfg, stamp, s.findings, s.accepted, t)
    ensures forall f :: f in batch && Admissible(s.cfg, f, now) ==> HasKey(Next(s, Ingest(batch, now)).accepted, f)
  {
    hide Next;
    TableAfter(s, Ingest(batch, now));
    var rows := Admitted(s.cfg, batch, now);
    AdmittedRows(s.cfg, batch, now);
    Later(s.cfg, stamp, s.findings, s.accepted, t, now);
    InsertKeepsInv(s.cfg, stamp, s.findings, s.accepted, rows, now);
    InsertGrows(s.findings, rows);
    var t', a' := InsertAll(s.findings, rows).0, s.accepted + InsertAll(s.findings, rows).1;
    forall f | f in batch && Admissible(s.cfg, f, now) ensures HasKey(a', f) {
      var k :| 0 <= k < |t'| && SameKey(t'[k], f);
      assert t'[k] in a';
      var j :| 0 <= j < |a'| && a'[j] == t'[k];
    }
  }

  // What has entered is in the table, or too old to be admitted again.
  lemma EnteredOrStale(cfg: Config, stamp: (string, nat) -> real, table: seq<Finding>, accepted: seq<Finding>,
                       f: Finding, t: real)
    requires Inv(cfg, stamp, table, accepted, t) && Stamped(stamp, f) && HasKey(accepted, f)
    ensures StoredOrStale(cfg, table, f, t)
  {
    var k :| 0 <= k < |accepted| && SameKey(accepted[k], f);
    assert StoredOrStale(cfg, table, accepted[k], t) && accepted[k] in accepted && Stamped(stamp, accepted[k]);
    KeyCarries(table, accepted[k], f);
  }

  // Refused as coming from the future at `now`, welcome at `later`.
  ghost predicate Ripened(cfg: Config, f: Finding, now: real, later: real) {
    f.observedAt > now + FUTURE_SLACK_MS && Admissible(cfg, f, later)
  }

  // Pushing the batch of any earlier call again changes neither the table nor the log of
  // entries, unless that call had refused one of its findings as coming from the future.
  lemma RepushIsHarmless(cfg: Config, stamp: (string, nat) -> real, es: seq<Event>, k: nat, later: real)
    requires cfg.minSamples >= 1 && Timed(es) && Honest(stamp, es)
    requires k < |es| && es[k].Ingest? && es[|es|-1].now <= later
    ensures var s := Run(Init(cfg), es);
      var (t, news) := InsertAll(s.findings, Admitted(cfg, es[k].batch, later));
      && (news == [] ==> t == s.findings)
      && (news == [] <==> forall f :: f in es[k].batch && Ripened(cfg, f, es[k].now, later) ==> HasKey(s.findings, f))
  {
    hide Next;
    var s, batch := Run(Init(cfg), es), es[k].batch;
    var rows := Admitted(cfg, batch, later);
    NothingToInsert(s.findings, rows);
    AdmittedRows(cfg, batch, later);
    RunKeepsInv(cfg, stamp, es);
    BatchEntered(cfg, stamp, es, k);
    assert es[k].now <= es[|es|-1].now;
    Later(cfg, stamp, s.findings, s.accepted, es[|es|-1].now, later);
    forall f | f in batch && Admissible(cfg, f, later) && !Ripened(cfg, f, es[k].now, later)
      ensures HasKey(s.findings, f)
    {
      assert Admissible(cfg, f, es[k].now);
      EnteredOrStale(cfg, stamp, s.findings, s.accepted, f, later);
    }
  }

  lemma BatchEntered(cfg: Config, stamp: (string, nat) -> real, es: seq<Event>, k: nat)
    requires cfg.minSamples >= 1 && Timed(es) && Honest(stamp, es) && k < |es| && es[k].Ingest?
    ensures forall f :: f in es[k].batch && Admissible(cfg, f, es[k].now) ==> HasKey(Run(Init(cfg), es).accepted, f)
  {
    hide Next;
    var init := es[..k];
    assert es[..k+1][..k] == init && es[..k+1][k] == es[k];
    assert forall i :: 0 <= i < k ==> init[i] == es[i];
    RunKeepsInv(cfg, stamp, init);
    var s := Run(Init(cfg), init);
    var t := if init == [] then es[k].now else init[k-1].now;
    PushEnters(s, stamp, es[k].batch, es[k].now, t);
    AcceptedGrows(Init(cfg), es, k + 1);
    var a := Next(s, es[k]).accepted;
    forall f | f in es[k].batch && Admissible(cfg, f, es[k].now) ensures HasKey(Run(Init(cfg), es).accepted, f) {
      HasKeyGrows(a, Run(Init(cfg), es).accepted, f);
    }
  }

  // A finding from more than a minute ahead is refused when it is pushed, and enters when the
  // same batch is pushed again once it has come of age.
  lemma RefusedThenEnters(cfg: Config, f: Finding, now: real)
    requires cfg.minSamples >= 1 && cfg.retention >= 0.0 && f.observedAt > now + FUTURE_SLACK_MS
    ensures var s := Run(Init(cfg), [Ingest([f], now)]);
      && s.findings == []
      && Ripened(cfg, f, now, f.observedAt)
      && InsertAll(s.findings, Admitted(cfg, [f], f.observedAt)) == ([f], [f])
  {
    hide Next;
    var e := Ingest([f], now);
    assert [e][..0] == [] && [f][..0] == [];
    assert Run(Init(cfg), [e]) == Next(Init(cfg), e) by { assert Run(Init(cfg), []) == Init(cfg); }
    TableAfter(Init(cfg), e);
    assert Admitted(cfg, [f], now) == [];
    assert Admitted(cfg, [f], f.observedAt) == [f];
    assert [] + [f] == [f];
  }
}
