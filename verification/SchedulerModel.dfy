/**
 When a schedule is due, what a tick submits, and which schedule a finished job belongs
 to, over a run of ticks and completions.  Times are epoch milliseconds, UTC.
 */
module SchedulerModel {

  datatype Option<T> = None | Some(value: T)

  const DAY_MS: real := 86_400_000.0
  const HOUR_MS: real := 3_600_000.0
  const MINUTE_MS: real := 60_000.0

  datatype Cadence = Every(ms: real) | Daily(hh: nat, mm: nat)

  datatype Schedule = Schedule(id: string, valid: bool, cadence: Cadence)

  // The times of day and the periods the grammar admits.
  predicate WellFormed(s: Schedule) {
    match s.cadence
    case Every(ms) => ms > 0.0
    case Daily(hh, mm) => hh < 24 && mm < 60
  }

  function LastOr0(last: Option<real>): real { if last.Some? then last.value else 0.0 }

  // The slot of a daily schedule on the day of `now`.
  function Slot(hh: nat, mm: nat, now: real): real {
    (now / DAY_MS).Floor as real * DAY_MS + hh as real * HOUR_MS + mm as real * MINUTE_MS
  }

  function NextDue(s: Schedule, last: Option<real>, now: real): Option<real> {
    if !s.valid then None
    else
      match s.cadence
      case Every(ms) => Some(LastOr0(last) + ms)
      case Daily(hh, mm) =>
        var today := Slot(hh, mm, now);
        var candidate := if today > LastOr0(last) then today else today + DAY_MS;
        Some(if candidate <= LastOr0(last) then candidate + DAY_MS else candidate)
  }

  predicate IsDue(s: Schedule, last: Option<real>, now: real) {
    var due := NextDue(s, last, now);
    due.Some? && due.value <= now
  }

  // A daily schedule is due exactly between its slot of the day and the first run after it.
  lemma DailyDueIff(s: Schedule, last: Option<real>, now: real)
    requires s.valid && s.cadence.Daily? && WellFormed(s)
    ensures IsDue(s, last, now) <==> LastOr0(last) < Slot(s.cadence.hh, s.cadence.mm, now) <= now
  {
    var d := (now / DAY_MS).Floor as real;
    assert d <= now / DAY_MS < d + 1.0;
    assert now < (d + 1.0) * DAY_MS;
    assert s.cadence.hh as real * HOUR_MS >= 0.0 && s.cadence.mm as real * MINUTE_MS >= 0.0;
  }

  // ... on the day that holds the moment, day by day since the epoch.
  lemma DailyDueOnDay(s: Schedule, last: Option<real>, now: real, day: int)
    requires s.valid && s.cadence.Daily? && WellFormed(s)
    requires day as real * 86_400_000.0 <= now < (day + 1) as real * 86_400_000.0
    ensures var slot := day as real * 86_400_000.0 + (s.cadence.hh * 3_600_000 + s.cadence.mm * 60_000) as real;
      IsDue(s, last, now) <==> (if last.None? then 0.0 else last.value) < slot <= now
  {
    DayOf(now, day);
    DailyDueIff(s, last, now);
  }

  lemma DayOf(now: real, day: int)
    requires day as real * 86_400_000.0 <= now < (day + 1) as real * 86_400_000.0
    ensures (now / DAY_MS).Floor == day
  {
    var q := now / DAY_MS;
    assert q * DAY_MS == now;
    assert day as real <= q < (day + 1) as real;
  }

  // A periodic schedule is due exactly when a period has passed since its last run, or since
  // the epoch if it never ran; an invalid one never is.
  lemma EveryDueIff(s: Schedule, last: Option<real>, now: real)
    requires s.cadence.Every?
    ensures IsDue(s, last, now) <==>
      s.valid && (if last.Some? then now - last.value >= s.cadence.ms else now >= s.cadence.ms)
  {
  }

  lemma InvalidNeverDue(s: Schedule, last: Option<real>, now: real)
    requires !s.valid
    ensures !IsDue(s, last, now)
  {
  }

  // ----------------------------------------------------------------- the job index

  datatype Link = Link(job: string, schedule: string)

  function Remove(index: seq<Link>, job: string): seq<Link> {
    if index == [] then []
    else if index[0].job == job then index[1..]
    else [index[0]] + Remove(index[1..], job)
  }

  function Find(index: seq<Link>, job: string): Option<string> {
    if index == [] then None
    else if index[0].job == job then Some(index[0].schedule)
    else Find(index[1..], job)
  }

  // A job that is there keeps its place; a new one goes to the end.
  function Put(index: seq<Link>, job: string, schedule: string): seq<Link> {
    if index == [] then [Link(job, schedule)]
    else if index[0].job == job then [Link(job, schedule)] + index[1..]
    else [index[0]] + Put(index[1..], job, schedule)
  }

  // The oldest go first.
  function Fitted(index: seq<Link>, capacity: nat): (r: seq<Link>)
    ensures |r| <= capacity
  {
    if |index| <= capacity then index else index[|index|-capacity..]
  }

  function Remember(index: seq<Link>, capacity: nat, job: string, schedule: string): (r: seq<Link>)
    ensures |r| <= capacity
  {
    Fitted(Put(index, job, schedule), capacity)
  }

  // -------------------------------------------------------------------- the machine

  // `seen` is when its tick found the entry due, `at` when it was submitted.
  datatype Submission = Submission(entry: nat, seen: real, at: real, job: string)

  datatype State = State(schedules: seq<Schedule>, capacity: nat,
                         stamps: map<string, real>,      // the last run of each schedule id
                         index: seq<Link>,
                         history: seq<Submission>)       // every job handed to the queue

  // The queue refuses the job, or takes it and the run cannot be written down.  `at` is the
  // clock the submission read for itself.
  datatype Outcome = Done(at: real, job: string) | SubmitFails(at: real) | RecordFails(at: real, job: string)

  datatype Event =
    | Tick(at: real, outcomes: seq<Outcome>)
    | Completed(at: real, job: string, recorded: bool)
  {
    // The last clock reading of the event.
    function End(): real {
      if Tick? && |outcomes| > 0 then outcomes[|outcomes|-1].at else at
    }
  }

  predicate Enabled(s: State, e: Event) { e.Tick? ==> |e.outcomes| == |s.schedules| }

  function StampOf(stamps: map<string, real>, id: string): Option<real> {
    if id in stamps then Some(stamps[id]) else None
  }

  predicate Below(ks: seq<nat>, n: nat) {
    forall i :: 0 <= i < |ks| ==> ks[i] < n
  }

  predicate IsDueAt(schedules: seq<Schedule>, stamps: map<string, real>, k: nat, now: real) {
    k < |schedules| && IsDue(schedules[k], StampOf(stamps, schedules[k].id), now)
  }

  // The entries that are due, in order.
  function Due(schedules: seq<Schedule>, stamps: map<string, real>, now: real, n: nat): (r: seq<nat>)
    requires n <= |schedules|
    ensures Below(r, n)
    ensures forall i :: 0 <= i < |r| ==> IsDueAt(schedules, stamps, r[i], now)
    ensures forall i, j :: 0 <= i < j < |r| ==> r[i] < r[j]
  {
    if n == 0 then []
    else
      var rest := Due(schedules, stamps, now, n - 1);
      if IsDueAt(schedules, stamps, n - 1, now) then rest + [n - 1] else rest
  }

  lemma {:induction false} DueIsAll(schedules: seq<Schedule>, stamps: map<string, real>, now: real, n: nat, k: nat)
    requires k < n <= |schedules| && IsDueAt(schedules, stamps, k, now)
    ensures k in Due(schedules, stamps, now, n)
  {
    if k < n - 1 { DueIsAll(schedules, stamps, now, n - 1, k); }
  }

  // The run is written down before the job is remembered.
  function SubmitOne(s: State, k: nat, outcome: Outcome, now: real): (s': State)
    requires k < |s.schedules|
    ensures s'.schedules == s.schedules && s'.capacity == s.capacity
  {
    match outcome
    case SubmitFails(_) => s
    case RecordFails(at, job) => s.(history := s.history + [Submission(k, now, at, job)])
    case Done(at, job) =>
      s.(history := s.history + [Submission(k, now, at, job)],
         stamps := s.stamps[s.schedules[k].id := at],
         index := Remember(s.index, s.capacity, job, s.schedules[k].id))
  }

  function SubmitAll(s: State, due: seq<nat>, outcomes: seq<Outcome>, now: real): (s': State)
    requires |outcomes| == |s.schedules| && Below(due, |s.schedules|)
    ensures s'.schedules == s.schedules && s'.capacity == s.capacity
    decreases |due|
  {
    if |due| == 0 then s
    else
      SubmitOne(SubmitAll(s, due[..|due|-1], outcomes, now), due[|due|-1], outcomes[due[|due|-1]], now)
  }

  function Next(s: State, e: Event): (s': State)
    requires Enabled(s, e)
    ensures s'.schedules == s.schedules && s'.capacity == s.capacity
  {
    match e
    case Tick(now, outcomes) => SubmitAll(s, Due(s.schedules, s.stamps, now, |s.schedules|), outcomes, now)
    case Completed(at, job, recorded) =>
      var schedule := Find(s.index, job);
      if schedule.None? then s
      else
        s.(index := Remove(s.index, job),
           stamps := if recorded then s.stamps[schedule.value := at] else s.stamps)
  }

  function Run(s: State, es: seq<Event>): (s': State)
    ensures s'.schedules == s.schedules && s'.capacity == s.capacity
    decreases |es|
  {
    if |es| == 0 then s
    else
      var before := Run(s, es[..|es|-1]);
      if Enabled(before, es[|es|-1]) then Next(before, es[|es|-1]) else before
  }

  function Init(schedules: seq<Schedule>, capacity: nat): State {
    State(schedules, capacity, map[], [], [])
  }

  // ------------------------------------------------------------------ once per slot

  // The clock never goes back, and no run went unrecorded.
  ghost predicate Orderly(es: seq<Event>) {
    && (forall i, j :: 0 <= i < j < |es| ==> es[i].End() <= es[j].at)
    && (forall i :: 0 <= i < |es| && es[i].Tick? ==> AllRecorded(es[i].outcomes) && Clocked(es[i].at, es[i].outcomes))
  }

  // The submissions of a tick read the clock after it, one after the other.
  predicate Clocked(now: real, outcomes: seq<Outcome>) {
    && (forall k :: 0 <= k < |outcomes| ==> now <= outcomes[k].at)
    && forall j, k :: 0 <= j < k < |outcomes| ==> outcomes[j].at <= outcomes[k].at
  }

  predicate AllRecorded(outcomes: seq<Outcome>) {
    forall k :: 0 <= k < |outcomes| ==> !outcomes[k].RecordFails?
  }

  // What the schedule of two submissions says about the time between them.
  predicate Apart(s: Schedule, first: Submission, second: Submission) {
    && first.seen <= first.at <= second.seen <= second.at
    && match s.cadence
       case Every(ms) => second.seen - first.at >= ms
       case Daily(hh, mm) =>
         Slot(hh, mm, first.seen) <= first.seen && first.at < Slot(hh, mm, second.seen) <= second.seen
  }

  ghost predicate Spaced(schedules: seq<Schedule>, h: seq<Submission>) {
    && (forall i :: 0 <= i < |h| ==> h[i].entry < |schedules|)
    && forall i, j :: 0 <= i < j < |h| && h[i].entry == h[j].entry < |schedules| ==>
         Apart(schedules[h[i].entry], h[i], h[j])
  }

  predicate SlotPast(s: Schedule, at: real) {
    s.cadence.Daily? ==> Slot(s.cadence.hh, s.cadence.mm, at) <= at
  }

  // Every submission has a stamp no older than itself, and no stamp is later than now.
  ghost predicate Stamped(schedules: seq<Schedule>, stamps: map<string, real>, x: Submission) {
    && x.entry < |schedules| && SlotPast(schedules[x.entry], x.seen) && x.seen <= x.at
    && schedules[x.entry].id in stamps && x.at <= stamps[schedules[x.entry].id]
  }

  ghost predicate NotLater(stamps: map<string, real>, now: real) {
    forall id :: id in stamps ==> stamps[id] <= now
  }

  ghost predicate Inv(s: State, now: real) {
    && Spaced(s.schedules, s.history) && NotLater(s.stamps, now)
    && forall i :: 0 <= i < |s.history| ==> Stamped(s.schedules, s.stamps, s.history[i])
  }

  lemma DueApart(s: Schedule, stamp: real, first: Submission, second: Submission)
    requires s.valid && WellFormed(s) && first.seen <= first.at <= stamp && SlotPast(s, first.seen)
    requires IsDue(s, Some(stamp), second.seen) && stamp <= second.seen <= second.at
    ensures Apart(s, first, second)
  {
    if s.cadence.Daily? { DailyDueIff(s, Some(stamp), second.seen); }
  }

  lemma DueSlotPast(s: Schedule, last: Option<real>, now: real)
    requires s.valid && WellFormed(s) && IsDue(s, last, now)
    ensures SlotPast(s, now)
  {
    if s.cadence.Daily? { DailyDueIff(s, last, now); }
  }

  // Entry `k` was due by the stamps the tick began with.
  ghost predicate WasDue(schedules: seq<Schedule>, start: map<string, real>, k: nat, now: real) {
    k < |schedules| && schedules[k].valid && WellFormed(schedules[k])
    && IsDue(schedules[k], StampOf(start, schedules[k].id), now)
  }

  // In the middle of a tick, at `clock`: what was submitted before it is older than the
  // stamps it began with, and what was submitted in it is from an earlier entry.
  ghost predicate MidTick(s: State, before: State, k: nat, now: real, clock: real) {
    && Inv(s, clock) && Inv(before, now) && s.schedules == before.schedules && now <= clock
    && before.history <= s.history
    && forall i :: |before.history| <= i < |s.history| ==> s.history[i].entry < k
  }

  lemma AppendSpaced(schedules: seq<Schedule>, h: seq<Submission>, x: Submission)
    requires Spaced(schedules, h) && x.entry < |schedules|
    requires forall i :: 0 <= i < |h| && h[i].entry == x.entry ==> Apart(schedules[x.entry], h[i], x)
    ensures Spaced(schedules, h + [x])
  {
  }

  lemma EarlierApart(s: State, before: State, k: nat, now: real, clock: real, i: nat, x: Submission)
    requires MidTick(s, before, k, now, clock) && WasDue(s.schedules, before.stamps, k, now)
    requires i < |s.history| && s.history[i].entry == k && x.seen == now <= x.at
    ensures Apart(s.schedules[k], s.history[i], x)
  {
    assert s.history[i] == before.history[i];
    assert Stamped(before.schedules, before.stamps, before.history[i]);
    DueApart(s.schedules[k], before.stamps[s.schedules[k].id], s.history[i], x);
  }

  lemma SubmitKeeps(s: State, before: State, k: nat, outcome: Outcome, now: real, clock: real)
    requires MidTick(s, before, k, now, clock) && WasDue(s.schedules, before.stamps, k, now)
    requires !outcome.RecordFails? && clock <= outcome.at
    ensures MidTick(SubmitOne(s, k, outcome, now), before, k + 1, now, outcome.at)
  {
    if outcome.Done? {
      var x := Submission(k, now, outcome.at, outcome.job);
      var s' := SubmitOne(s, k, outcome, now);
      forall i | 0 <= i < |s.history| && s.history[i].entry == k ensures Apart(s.schedules[k], s.history[i], x) {
        EarlierApart(s, before, k, now, clock, i, x);
      }
      AppendSpaced(s.schedules, s.history, x);
      DueSlotPast(s.schedules[k], StampOf(before.stamps, s.schedules[k].id), now);
      forall i | 0 <= i < |s'.history| ensures Stamped(s'.schedules, s'.stamps, s'.history[i]) {
        if i < |s.history| { assert Stamped(s.schedules, s.stamps, s.history[i]); }
      }
    }
  }

  lemma {:induction false} SubmitAllKeeps(before: State, due: seq<nat>, outcomes: seq<Outcome>, now: real,
                                          n: nat, clock: real)
    requires |outcomes| == |before.schedules| && AllRecorded(outcomes) && Inv(before, now)
    requires Below(due, |before.schedules|) && Clocked(now, outcomes) && now <= clock
    requires forall i :: 0 <= i < |due| ==>
               due[i] < n && WasDue(before.schedules, before.stamps, due[i], now) && outcomes[due[i]].at <= clock
    requires forall i, j :: 0 <= i < j < |due| ==> due[i] < due[j]
    ensures MidTick(SubmitAll(before, due, outcomes, now), before, n, now, clock)
    decreases |due|
  {
    hide SubmitOne, MidTick, WasDue;
    if |due| == 0 {
      StartOfTick(before, n, now);
      LaterInTick(before, before, n, n, now, now, clock);
    } else {
      var init, k := due[..|due|-1], due[|due|-1];
      assert forall i :: 0 <= i < |init| ==> init[i] == due[i];
      assert WasDue(before.schedules, before.stamps, due[|due|-1], now);
      var at := outcomes[k].at;
      SubmitAllKeeps(before, init, outcomes, now, k, at);
      WasDueBound(before.schedules, before.stamps, k, now);
      SubmitKeeps(SubmitAll(before, init, outcomes, now), before, k, outcomes[k], now, at);
      LaterInTick(SubmitOne(SubmitAll(before, init, outcomes, now), k, outcomes[k], now), before,
                  k + 1, n, now, at, clock);
    }
  }

  lemma WasDueBound(schedules: seq<Schedule>, stamps: map<string, real>, k: nat, now: real)
    requires WasDue(schedules, stamps, k, now)
    ensures k < |schedules|
  {
  }

  lemma StartOfTick(s: State, n: nat, now: real)
    requires Inv(s, now)
    ensures MidTick(s, s, n, now, now)
  {
  }

  lemma LaterInTick(s: State, before: State, k: nat, n: nat, now: real, clock: real, later: real)
    requires MidTick(s, before, k, now, clock) && k <= n && clock <= later
    ensures MidTick(s, before, n, now, later)
  {
  }

  lemma Later(s: State, t: real, t': real)
    requires Inv(s, t) && t <= t'
    ensures Inv(s, t')
  {
  }

  predicate AllWellFormed(schedules: seq<Schedule>) {
    forall k :: 0 <= k < |schedules| ==> WellFormed(schedules[k])
  }

  lemma TickKeepsInv(s: State, now: real, outcomes: seq<Outcome>)
    requires Inv(s, now) && AllWellFormed(s.schedules) && Enabled(s, Tick(now, outcomes))
    requires AllRecorded(outcomes) && Clocked(now, outcomes)
    ensures Inv(Next(s, Tick(now, outcomes)), Tick(now, outcomes).End())
  {
    hide Inv;
    var clock := Tick(now, outcomes).End();
    var due := Due(s.schedules, s.stamps, now, |s.schedules|);
    forall i | 0 <= i < |due| ensures WasDue(s.schedules, s.stamps, due[i], now) {
      assert IsDueAt(s.schedules, s.stamps, due[i], now) && WellFormed(s.schedules[due[i]]);
    }
    SubmitAllKeeps(s, due, outcomes, now, |s.schedules|, clock);
    EndOfTick(SubmitAll(s, due, outcomes, now), s, |s.schedules|, now, clock);
  }

  lemma EndOfTick(s: State, before: State, n: nat, now: real, clock: real)
    requires MidTick(s, before, n, now, clock)
    ensures Inv(s, clock)
  {
  }

  lemma CompletionKeepsInv(s: State, at: real, job: string, recorded: bool)
    requires Inv(s, at)
    ensures Inv(Next(s, Completed(at, job, recorded)), at)
  {
    var s' := Next(s, Completed(at, job, recorded));
    forall i | 0 <= i < |s'.history| ensures Stamped(s'.schedules, s'.stamps, s'.history[i]) {
      assert Stamped(s.schedules, s.stamps, s.history[i]);
    }
  }

  lemma {:induction false} RunKeepsInv(schedules: seq<Schedule>, capacity: nat, es: seq<Event>, now: real)
    requires AllWellFormed(schedules) && Orderly(es) && forall i :: 0 <= i < |es| ==> es[i].End() <= now
    ensures Inv(Run(Init(schedules, capacity), es), now)
    decreases |es|
  {
    hide Next, Inv, Enabled;
    if |es| == 0 {
      InitOk(schedules, capacity, now);
    } else {
      var init, e := es[..|es|-1], es[|es|-1];
      assert forall i :: 0 <= i < |init| ==> init[i] == es[i];
      RunKeepsInv(schedules, capacity, init, e.at);
      var s := Run(Init(schedules, capacity), init);
      if Enabled(s, e) {
        if e.Tick? { TickKeepsInv(s, e.at, e.outcomes); } else { CompletionKeepsInv(s, e.at, e.job, e.recorded); }
        Later(Next(s, e), e.End(), now);
      } else {
        EndNotBefore(e);
        Later(s, e.at, now);
      }
    }
  }

  lemma EndNotBefore(e: Event)
    requires e.Tick? ==> Clocked(e.at, e.outcomes)
    ensures e.at <= e.End()
  {
  }

  lemma InitOk(schedules: seq<Schedule>, capacity: nat, now: real)
    ensures Inv(Init(schedules, capacity), now)
  {
  }

  // A daily schedule submits at most once per slot, and never before the slot; a periodic one
  // is not even found due until a period after its last submission.
  lemma OncePerSlot(schedules: seq<Schedule>, capacity: nat, es: seq<Event>)
    requires AllWellFormed(schedules) && Orderly(es)
    ensures Spaced(schedules, Run(Init(schedules, capacity), es).history)
  {
    hide Run;
    if |es| > 0 {
      var last := es[|es|-1];
      EndNotBefore(last);
      forall i | 0 <= i < |es| ensures es[i].End() <= last.End() {
        if i < |es| - 1 { assert es[i].End() <= last.at; }
      }
    }
    RunKeepsInv(schedules, capacity, es, if |es| == 0 then 0.0 else es[|es|-1].End());
  }

  lemma RunOne(s: State, e: Event)
    requires Enabled(s, e)
    ensures Run(s, [e]) == Next(s, e)
  {
    assert [e][..0] == [];
  }

  lemma RunTwo(s: State, e: Event, f: Event)
    requires Enabled(s, e) && Enabled(Next(s, e), f)
    ensures Run(s, [e, f]) == Next(Next(s, e), f)
  {
    hide Next, Enabled;
    RunOne(s, e);
    assert [e, f][..1] == [e];
  }

  // --------------------------------------------------------------------- isolation

  // The jobs a list of due entries gives rise to, whatever state they find.
  function Submitted(due: seq<nat>, outcomes: seq<Outcome>, now: real): seq<Submission>
    requires Below(due, |outcomes|)
  {
    if |due| == 0 then []
    else
      var rest, k := Submitted(due[..|due|-1], outcomes, now), due[|due|-1];
      if outcomes[k].SubmitFails? then rest else rest + [Submission(k, now, outcomes[k].at, outcomes[k].job)]
  }

  // A tick submits every due entry whose own submission succeeds, whatever becomes of the
  // others: one that fails takes nothing else with it.
  lemma {:induction false} TickIsolates(s: State, due: seq<nat>, outcomes: seq<Outcome>, now: real)
    requires |outcomes| == |s.schedules| && Below(due, |s.schedules|)
    ensures SubmitAll(s, due, outcomes, now).history == s.history + Submitted(due, outcomes, now)
    decreases |due|
  {
    if |due| != 0 {
      TickIsolates(s, due[..|due|-1], outcomes, now);
    }
  }

  // ---------------------------------------------------------------- runs not recorded

  // None of the entries submitted under `id` had its run written down.
  ghost predicate NoneRecorded(schedules: seq<Schedule>, due: seq<nat>, outcomes: seq<Outcome>, id: string)
    requires |outcomes| == |schedules| && Below(due, |schedules|)
  {
    forall i :: 0 <= i < |due| && schedules[due[i]].id == id ==> !outcomes[due[i]].Done?
  }

  // A tick leaves the stamp of `id` as it was, or sets it to a time in the tick.
  lemma {:induction false} StampAfter(s: State, due: seq<nat>, outcomes: seq<Outcome>, now: real, id: string)
    requires |outcomes| == |s.schedules| && Below(due, |s.schedules|) && Clocked(now, outcomes)
    ensures var last := StampOf(SubmitAll(s, due, outcomes, now).stamps, id);
      if NoneRecorded(s.schedules, due, outcomes, id) then last == StampOf(s.stamps, id)
      else last.Some? && now <= last.value
    decreases |due|
  {
    if |due| != 0 {
      var init, k := due[..|due|-1], due[|due|-1];
      assert forall i :: 0 <= i < |init| ==> init[i] == due[i];
      StampAfter(s, init, outcomes, now, id);
      assert due[|due|-1] == k;
      if s.schedules[k].id == id && outcomes[k].Done? {
        assert !NoneRecorded(s.schedules, due, outcomes, id);
      } else {
        assert NoneRecorded(s.schedules, due, outcomes, id) <==> NoneRecorded(s.schedules, init, outcomes, id);
      }
    }
  }

  // A later stamp makes no schedule due that an earlier one does not.
  lemma StampDelays(s: Schedule, stamp: real, later: real, now: real)
    requires WellFormed(s) && stamp <= later && !IsDue(s, Some(stamp), now)
    ensures !IsDue(s, Some(later), now)
  {
    if s.valid && s.cadence.Daily? {
      DailyDueIff(s, Some(stamp), now);
      DailyDueIff(s, Some(later), now);
    }
  }

  lemma JustRunIsNotDue(s: Schedule, now: real)
    requires WellFormed(s)
    ensures !IsDue(s, Some(now), now)
  {
    if s.valid && s.cadence.Daily? { DailyDueIff(s, Some(now), now); }
  }

  // A schedule that a tick found due is due again for the next one, at the same time or at
  // any time a run of this tick would still cover, exactly when no run of its id was recorded.
  lemma DueAgainIff(s: State, k: nat, now: real, outcomes: seq<Outcome>, again: real)
    requires Enabled(s, Tick(now, outcomes)) && Clocked(now, outcomes)
    requires IsDueAt(s.schedules, s.stamps, k, again) && WellFormed(s.schedules[k])
    requires again == now || !IsDue(s.schedules[k], Some(now), again)
    ensures IsDueAt(s.schedules, Next(s, Tick(now, outcomes)).stamps, k, again)
       <==> NoneRecorded(s.schedules, Due(s.schedules, s.stamps, now, |s.schedules|), outcomes, s.schedules[k].id)
  {
    hide IsDue, Due;
    var due := Due(s.schedules, s.stamps, now, |s.schedules|);
    var id := s.schedules[k].id;
    StampAfter(s, due, outcomes, now, id);
    JustRunIsNotDue(s.schedules[k], now);
    if !NoneRecorded(s.schedules, due, outcomes, id) {
      StampDelays(s.schedules[k], now, StampOf(SubmitAll(s, due, outcomes, now).stamps, id).value, again);
    }
  }

  // What a tick adds to the history.
  function Fired(s: State, now: real, outcomes: seq<Outcome>): seq<Submission>
    requires |outcomes| == |s.schedules|
  {
    Submitted(Due(s.schedules, s.stamps, now, |s.schedules|), outcomes, now)
  }

  ghost predicate Fires(h: seq<Submission>, k: nat) {
    exists i :: 0 <= i < |h| && h[i].entry == k
  }

  lemma {:induction false} SubmittedHas(due: seq<nat>, outcomes: seq<Outcome>, now: real, k: nat)
    requires Below(due, |outcomes|)
    ensures Fires(Submitted(due, outcomes, now), k) <==> k in due && !outcomes[k].SubmitFails?
  {
    if |due| != 0 {
      var init, x := due[..|due|-1], due[|due|-1];
      var rest := Submitted(init, outcomes, now);
      SubmittedHas(init, outcomes, now, k);
      assert due == init + [x];
      var all := Submitted(due, outcomes, now);
      assert forall i :: 0 <= i < |rest| ==> all[i] == rest[i];
      if x == k && !outcomes[x].SubmitFails? { assert all[|rest|].entry == k; }
      if Fires(rest, k) { var i :| 0 <= i < |rest| && rest[i].entry == k; assert all[i].entry == k; }
    }
  }

  // Of two ticks in a row the second submits what the first did exactly if the queue takes it
  // and no run of its id was recorded: a run that could not be written down happens twice.
  lemma UnrecordedRunsAgain(s: State, k: nat, now: real, outcomes: seq<Outcome>, again: real, replies: seq<Outcome>)
    requires Enabled(s, Tick(now, outcomes)) && Clocked(now, outcomes) && |replies| == |s.schedules|
    requires IsDueAt(s.schedules, s.stamps, k, now) && WellFormed(s.schedules[k])
    requires IsDueAt(s.schedules, s.stamps, k, again) && (again == now || !IsDue(s.schedules[k], Some(now), again))
    ensures var t := Next(s, Tick(now, outcomes));
      && Run(s, [Tick(now, outcomes), Tick(again, replies)]).history
           == s.history + Fired(s, now, outcomes) + Fired(t, again, replies)
      && (Fires(Fired(s, now, outcomes), k) <==> !outcomes[k].SubmitFails?)
      && (Fires(Fired(t, again, replies), k) <==>
            !replies[k].SubmitFails?
            && NoneRecorded(s.schedules, Due(s.schedules, s.stamps, now, |s.schedules|), outcomes, s.schedules[k].id))
  {
    hide Next, Run, Due, Submitted, IsDue, NoneRecorded;
    var n, t := |s.schedules|, Next(s, Tick(now, outcomes));
    RunTwo(s, Tick(now, outcomes), Tick(again, replies));
    TickFires(s, now, outcomes);
    TickFires(t, again, replies);
    DueAgainIff(s, k, now, outcomes, again);
    DueIff(s.schedules, s.stamps, now, k);
    DueIff(t.schedules, t.stamps, again, k);
    SubmittedHas(Due(s.schedules, s.stamps, now, n), outcomes, now, k);
    SubmittedHas(Due(t.schedules, t.stamps, again, n), replies, again, k);
  }

  lemma TickFires(s: State, now: real, outcomes: seq<Outcome>)
    requires Enabled(s, Tick(now, outcomes))
    ensures Next(s, Tick(now, outcomes)).history == s.history + Fired(s, now, outcomes)
  {
    TickIsolates(s, Due(s.schedules, s.stamps, now, |s.schedules|), outcomes, now);
  }

  lemma DueIff(schedules: seq<Schedule>, stamps: map<string, real>, now: real, k: nat)
    requires k < |schedules|
    ensures k in Due(schedules, stamps, now, |schedules|) <==> IsDueAt(schedules, stamps, k, now)
  {
    if IsDueAt(schedules, stamps, k, now) { DueIsAll(schedules, stamps, now, |schedules|, k); }
  }
}
