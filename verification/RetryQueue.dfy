/**
 The retry loop of a worker and the delays between its attempts.
 */
module RetryQueue {

  datatype Option<T> = None | Some(value: T)

  // ---------------------------------------------------------------------- backoff

  const EXPONENT_CAP := 16

  function PowerOfTwo(n: nat): real {
    if n == 0 then 1.0 else 2.0 * PowerOfTwo(n - 1)
  }

  function Min(a: real, b: real): real { if a <= b then a else b }

  // The exponent is capped as well as the product.
  function Capped(f: int): nat { if f < 0 then 0 else if f < EXPONENT_CAP then f else EXPONENT_CAP }

  // The wait after so many failures in a row.
  function Delay(base: real, ceiling: real, failures: int): real {
    if failures <= 0 then base
    else Min(ceiling, Doubled(base, failures))
  }

  function Doubled(base: real, failures: int): real { base * PowerOfTwo(Capped(failures)) }

  // `exhausted`: the wait has come to its ceiling, so the loop is not recovering.
  predicate AtCeiling(base: real, ceiling: real, failures: int) { Delay(base, ceiling, failures) >= ceiling }

  class Backoff {
    const base: real
    const ceiling: real
    var failures: int

    // A base that is not positive, or a ceiling below it, is refused.
    static method Make(base: real, ceiling: real) returns (b: Backoff?)
      ensures b == null <==> base <= 0.0 || ceiling < base
      ensures b != null ==> fresh(b) && b.base == base && b.ceiling == ceiling && b.failures == 0
    {
      if base <= 0.0 || ceiling < base {
        return null;
      }
      b := new Backoff(base, ceiling);
    }

    constructor (base: real, ceiling: real)
      ensures this.base == base && this.ceiling == ceiling && failures == 0
    {
      this.base, this.ceiling := base, ceiling;
      failures := 0;
    }

    method Failed() returns (delay: real)
      modifies this`failures
      ensures failures == old(failures) + 1 && delay == Delay(base, ceiling, failures)
    {
      failures := failures + 1;
      delay := Delay(base, ceiling, failures);
    }

    // Recovery is immediate.
    method Succeeded()
      modifies this`failures
      ensures failures == 0 && Delay(base, ceiling, failures) == base
    {
      failures := 0;
    }
  }

  lemma {:induction false} PowersGrow(m: nat, n: nat)
    requires m <= n
    ensures 1.0 <= PowerOfTwo(m) <= PowerOfTwo(n)
  {
    if n > 0 {
      if m == n { PowersGrow(m - 1, n - 1); } else { PowersGrow(m, n - 1); }
    }
  }

  lemma Scaled(base: real, x: real, y: real)
    requires base > 0.0 && x <= y
    ensures base * x <= base * y
  {
  }

  lemma DelayAsPower(base: real, ceiling: real, f: int)
    requires 0.0 < base <= ceiling
    ensures Delay(base, ceiling, f) == Min(ceiling, Doubled(base, f))
  {
    if f <= 0 { assert PowerOfTwo(Capped(f)) == 1.0; }
  }

  lemma DoubledGrows(base: real, f: int, g: int)
    requires base > 0.0 && f <= g
    ensures base <= Doubled(base, f) <= Doubled(base, g)
  {
    PowersGrow(Capped(f), Capped(g));
    Scaled(base, 1.0, PowerOfTwo(Capped(f)));
    Scaled(base, PowerOfTwo(Capped(f)), PowerOfTwo(Capped(g)));
  }

  // Between the base and the ceiling, and never shorter after one more failure.
  lemma DelaysGrow(base: real, ceiling: real, f: int, g: int)
    requires 0.0 < base <= ceiling && f <= g
    ensures base <= Delay(base, ceiling, f) <= Delay(base, ceiling, g) <= ceiling
  {
    hide Delay, Doubled;
    DelayAsPower(base, ceiling, f);
    DelayAsPower(base, ceiling, g);
    DoubledGrows(base, f, g);
  }

  // Each failure doubles the wait until the ceiling, or the cap on the exponent, is reached.
  lemma DelaysDouble(base: real, ceiling: real, f: nat)
    requires 0.0 < base <= ceiling && f < EXPONENT_CAP
    ensures Delay(base, ceiling, f + 1) == Min(ceiling, 2.0 * Delay(base, ceiling, f))
  {
    PowersGrow(0, f);
    assert PowerOfTwo(f + 1) == 2.0 * PowerOfTwo(f);
    assert base * PowerOfTwo(f + 1) == 2.0 * (base * PowerOfTwo(f));
    if f == 0 { assert base * PowerOfTwo(0) == base; }
  }

  // The failure is counted before the wait is computed: the first one is twice the base.
  lemma FirstWaitIsTwiceTheBase(base: real, ceiling: real)
    requires 0.0 < base <= ceiling
    ensures Delay(base, ceiling, 1) == Min(ceiling, 2.0 * base)
    ensures TotalSlept(2) == 2.0 * RETRY_BASE_S
  {
    DelaysDouble(base, ceiling, 0);
    DelaysDouble(RETRY_BASE_S, RETRY_CEILING_S, 0);
    assert TotalSlept(1) == 0.0;
  }

  // Some number of failures brings the wait to its ceiling.
  ghost predicate Exhaustible(base: real, ceiling: real) {
    exists failures: int :: AtCeiling(base, ceiling, failures)
  }

  // The cap on the exponent comes first if the ceiling is more than 65,536 times the base:
  // such a loop never calls itself exhausted, however long the outage.
  lemma ExhaustibleIff(base: real, ceiling: real)
    requires 0.0 < base <= ceiling
    ensures Exhaustible(base, ceiling) <==> ceiling <= 65_536.0 * base
  {
    hide Delay;
    if f: int :| AtCeiling(base, ceiling, f) {
      var most := if f > EXPONENT_CAP then f else EXPONENT_CAP;
      DelaysGrow(base, ceiling, f, most);
      PastTheCap(base, ceiling, most);
    }
    PastTheCap(base, ceiling, EXPONENT_CAP);
    if ceiling <= 65_536.0 * base { assert AtCeiling(base, ceiling, EXPONENT_CAP); }
  }

  lemma PastTheCap(base: real, ceiling: real, f: int)
    requires 0.0 < base <= ceiling && f >= EXPONENT_CAP
    ensures Delay(base, ceiling, f) == Min(ceiling, 65_536.0 * base)
  {
    DelayAsPower(base, ceiling, f);
    CapIs(Capped(f));
    Commutes(base, PowerOfTwo(Capped(f)), 65_536.0);
  }

  lemma CapIs(n: nat)
    requires n == EXPONENT_CAP
    ensures PowerOfTwo(n) == 65_536.0
  {
    assert PowerOfTwo(4) == 16.0;
    assert PowerOfTwo(8) == 256.0;
    assert PowerOfTwo(12) == 4_096.0;
    assert PowerOfTwo(16) == 65_536.0;
  }

  lemma Commutes(base: real, x: real, y: real)
    requires x == y
    ensures base * x == y * base
  {
  }

  // ------------------------------------------------------------------------- jobs

  const RETRY_BASE_S: real := 2.0
  const RETRY_CEILING_S: real := 30.0

  // The kinds whose work may be repeated; any other is tried once.
  function MaxAttempts(kind: string): int {
    if kind == "data.backfill" then 3
    else if kind == "data.replay" then 2
    else if kind == "ml.fit" then 2
    else 1
  }

  datatype Status = Queued | Running | Succeeded | Failed

  class JobRecord {
    const kind: string
    const maxAttempts: int
    var status: Status
    var progress: real
    var result: Option<string>
    var error: Option<string>
    var attempt: nat
    var nextAttemptAt: Option<real>
    var startedAt: Option<real>
    var finishedAt: Option<real>

    constructor (kind: string)
      ensures this.kind == kind && maxAttempts == MaxAttempts(kind) && attempt == 0 && status == Queued
    {
      this.kind := kind;
      maxAttempts := MaxAttempts(kind);
      status, progress, result, error, attempt := Queued, 0.0, None, None, 0;
      nextAttemptAt, startedAt, finishedAt := None, None, None;
    }
  }

  // What the work does at each attempt, and how long it takes over it.
  datatype Try = Returned(result: string, took: real) | Raised(error: string, took: real)

  type Pattern = nat -> Try

  // The attempt the loop ends at, having come to attempt `k`.
  function LastAttempt(pattern: Pattern, k: nat, max: int): nat
    decreases max - k
  {
    if pattern(k).Returned? || k >= max then k else LastAttempt(pattern, k + 1, max)
  }

  // It ends at the first attempt that returns, or at the last that is allowed.
  lemma {:induction false} LastAttemptIs(pattern: Pattern, k: nat, max: int)
    ensures var n := LastAttempt(pattern, k, max);
      && k <= n && (n <= max || n == k)
      && (forall i :: k <= i < n ==> pattern(i).Raised?)
      && (pattern(n).Returned? || n >= max)
    decreases max - k
  {
    if !(pattern(k).Returned? || k >= max) { LastAttemptIs(pattern, k + 1, max); }
  }

  lemma LastAttemptBounds(pattern: Pattern, k: nat, max: int)
    ensures var n := LastAttempt(pattern, k, max); k <= n && (n <= max || n == k)
  {
    LastAttemptIs(pattern, k, max);
  }

  // Every attempt that is allowed, and the first in any case, raises.
  ghost predicate AllRaise(pattern: Pattern, max: int) {
    forall i: nat :: 1 <= i <= max || i == 1 ==> pattern(i).Raised?
  }

  lemma FailsIffAllRaise(pattern: Pattern, max: int)
    ensures pattern(LastAttempt(pattern, 1, max)).Raised? <==> AllRaise(pattern, max)
    ensures AllRaise(pattern, max) ==> LastAttempt(pattern, 1, max) == if max > 1 then max else 1
  {
    LastAttemptIs(pattern, 1, max);
  }

  function TotalSlept(attempts: nat): real {
    if attempts <= 1 then 0.0 else TotalSlept(attempts - 1) + Delay(RETRY_BASE_S, RETRY_CEILING_S, attempts - 1)
  }

  function TotalWorked(pattern: Pattern, attempts: nat): real {
    if attempts == 0 then 0.0 else TotalWorked(pattern, attempts - 1) + pattern(attempts).took
  }

  // What one attempt leaves in the record; the last one settles it.
  method Settle(record: JobRecord, outcome: Try) returns (settled: bool)
    modifies record`result, record`status, record`nextAttemptAt, record`progress, record`error
    ensures settled <==> outcome.Returned? || record.attempt >= record.maxAttempts
    ensures outcome.Returned? ==>
      record.result == Some(outcome.result) && record.status == Succeeded && record.error == None
    ensures outcome.Raised? ==> record.result == old(record.result) && record.error == Some(outcome.error)
    ensures settled && outcome.Raised? ==> record.status == Failed
    ensures settled ==> record.nextAttemptAt == None
    ensures record.progress == if outcome.Returned? then 1.0 else old(record.progress)
  {
    settled := true;
    if outcome.Returned? {
      record.result := Some(outcome.result);
      record.status := Succeeded;
      record.nextAttemptAt := None;
      record.progress := 1.0;
      record.error := None;
      return;
    }
    record.error := Some(outcome.error);
    if record.attempt >= record.maxAttempts {
      record.status := Failed;
      record.nextAttemptAt := None;
      return;
    }
    settled := false;
  }

  // The record shows when the next attempt is due while the worker sleeps.
  method Postpone(record: JobRecord, now: real, delay: real)
    modifies record`nextAttemptAt
    ensures record.nextAttemptAt == Some(now + delay)
  {
    record.nextAttemptAt := Some(now + delay);
  }

  // Runs the work until it returns or has had its attempts, sleeping in between.
  method Runner(record: JobRecord, pattern: Pattern, now: real) returns (slept: real)
    requires record.attempt == 0
    modifies record
    ensures record.attempt == LastAttempt(pattern, 1, record.maxAttempts)
    ensures record.attempt <= record.maxAttempts || record.attempt == 1
    ensures record.status == if pattern(record.attempt).Returned? then Succeeded else Failed
    ensures record.status == Failed <==> AllRaise(pattern, record.maxAttempts)
    ensures record.status == Succeeded ==> record.result == Some(pattern(record.attempt).result) && record.error == None
    ensures record.status == Failed ==>
      record.error == Some(pattern(record.attempt).error) && record.result == old(record.result)
    ensures record.nextAttemptAt == None
    ensures record.progress == if record.status == Succeeded then 1.0 else old(record.progress)
    ensures slept == TotalSlept(record.attempt)
    ensures record.startedAt == Some(now)
    ensures record.finishedAt == Some(now + TotalWorked(pattern, record.attempt) + slept)
  {
    hide Delay, AllRaise;
    LastAttemptBounds(pattern, 1, record.maxAttempts);
    FailsIffAllRaise(pattern, record.maxAttempts);
    ghost var last := LastAttempt(pattern, 1, record.maxAttempts);
    var backoff := new Backoff(RETRY_BASE_S, RETRY_CEILING_S);
    var clock := now;
    slept := 0.0;
    record.startedAt := Some(clock);
    while true
      invariant record.attempt < last && LastAttempt(pattern, record.attempt + 1, record.maxAttempts) == last
      invariant backoff.failures == record.attempt && fresh(backoff)
      invariant backoff.base == RETRY_BASE_S && backoff.ceiling == RETRY_CEILING_S
      invariant slept == TotalSlept(record.attempt + 1)
      invariant clock == now + TotalWorked(pattern, record.attempt) + slept
      invariant record.startedAt == Some(now) && record.result == old(record.result)
      invariant record.progress == old(record.progress)
      decreases last - record.attempt
    {
      record.attempt := record.attempt + 1;
      record.status := Running;
      var outcome := pattern(record.attempt);
      clock := clock + outcome.took;
      assert clock == now + TotalWorked(pattern, record.attempt) + slept;
      var settled := Settle(record, outcome);
      if settled {
        break;
      }
      var delay := backoff.Failed();
      Postpone(record, clock, delay);
      clock := clock + delay;
      slept := slept + delay;
    }
    record.finishedAt := Some(clock);
  }

  // However its attempts go, a job is tried at most three times and sleeps for at most
  // twelve seconds in all.
  lemma RetriesAreFew(kind: string, pattern: Pattern)
    ensures 1 <= LastAttempt(pattern, 1, MaxAttempts(kind)) <= 3
    ensures 0.0 <= TotalSlept(LastAttempt(pattern, 1, MaxAttempts(kind))) <= 12.0
  {
    LastAttemptIs(pattern, 1, MaxAttempts(kind));
    assert PowerOfTwo(1) == 2.0 && PowerOfTwo(2) == 2.0 * PowerOfTwo(1);
    assert Delay(RETRY_BASE_S, RETRY_CEILING_S, 1) == 4.0;
    assert Delay(RETRY_BASE_S, RETRY_CEILING_S, 2) == 8.0;
  }

  // How often each kind may be tried, and how long it then sleeps in all.
  lemma AttemptsOfKinds(kind: string)
    ensures MaxAttempts(kind) == if kind == "data.backfill" then 3
                                 else if kind == "data.replay" || kind == "ml.fit" then 2 else 1
    ensures TotalSlept(1) == 0.0 && TotalSlept(2) == 4.0 && TotalSlept(3) == 12.0 && TotalSlept(4) == 28.0
  {
    WaitsAre(1);
    WaitsAre(2);
    WaitsAre(3);
    assert TotalSlept(1) == 0.0;
    assert TotalSlept(2) == 4.0;
    assert TotalSlept(3) == 12.0;
  }

  // Four, eight and sixteen seconds, and half a minute from then on.
  lemma WaitsAre(failures: nat)
    requires failures >= 1
    ensures Delay(RETRY_BASE_S, RETRY_CEILING_S, failures) ==
      if failures == 1 then 4.0 else if failures == 2 then 8.0 else if failures == 3 then 16.0 else 30.0
  {
    DelaysDouble(RETRY_BASE_S, RETRY_CEILING_S, 0);
    DelaysDouble(RETRY_BASE_S, RETRY_CEILING_S, 1);
    DelaysDouble(RETRY_BASE_S, RETRY_CEILING_S, 2);
    DelaysDouble(RETRY_BASE_S, RETRY_CEILING_S, 3);
    if failures > 3 { DelaysGrow(RETRY_BASE_S, RETRY_CEILING_S, 4, failures); }
  }

  // What a job would sleep in all if it were tried so often.
  lemma {:induction false} SleptInAll(attempts: nat)
    requires attempts >= 4
    ensures TotalSlept(attempts) == 28.0 + 30.0 * (attempts - 4) as real
  {
    hide Delay;
    if attempts == 4 { AttemptsOfKinds(""); } else { SleptInAll(attempts - 1); WaitsAre(attempts - 1); }
  }

  // Each wait is within the bounds, so the whole sleep is.
  lemma {:induction false} SleepBounds(attempts: nat)
    requires attempts >= 1
    ensures 2.0 * (attempts - 1) as real <= TotalSlept(attempts) <= 30.0 * (attempts - 1) as real
  {
    if attempts > 1 {
      SleepBounds(attempts - 1);
      DelaysGrow(RETRY_BASE_S, RETRY_CEILING_S, attempts - 1, attempts - 1);
    }
  }
}
