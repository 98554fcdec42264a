/**
 The bounded worker runtime: a semaphore of `maxWorkers + maxQueued` permits in
 front of a thread pool.  The shared counters are changed by the event loop, by
 the worker threads and by the futures' done callbacks, so the runtime is a step
 machine whose events are the sections of code that run without interruption.
 */
module RuntimeModel {

  const BUCKET_LIMIT: nat := 64
  const OVERFLOW_LABEL: string := "other"

  // What became of an operation that was given a permit.
  datatype Fate = Succeeded | Failed | NeverStarted | NeverSubmitted

  // Where one call of `run` stands.
  datatype Stage =
    | Waiting                  // in admission, holding nothing
    | Refused                  // turned away; never held a permit
    | Admitted                 // holds a permit; the budget is looked at again next
    | Counted                  // counted as queued, not yet handed to the pool
    | Pending                  // future queued in the pool
    | Claimed                  // a worker owns the future, `invoke` has not begun
    | Running                  // `invoke` is inside the submitted function
    | Raised                   // the function raised and the failure is counted
    | Unwound                  // the function returned and is no longer running
    | Finished(fate: Fate)     // the future is resolved or cancelled
    | Returning(fate: Fate)    // the callback ran; the release waits for the loop
    | Returned(fate: Fate)     // the permit went back

  // What the caller of `run` has heard.
  datatype Told =
    | Nothing
    | Saturated                // no permit came free in time
    | Expired                  // the budget ran out, wherever the call was
    | Withdrawn                // cancelled while it waited for a permit
    | Cancelled                // cancelled after the submission
    | Answered                 // the result, or what the work or the pool raised

  // `watched` while the caller awaits the future.
  datatype Op = Op(name: string, bucket: string, gen: nat, stage: Stage,
                   started: bool, watched: bool, releases: nat, told: Told)

  datatype Bucket = Bucket(submitted: int, completed: int, failed: int)

  datatype State = State(
    maxWorkers: nat, maxQueued: nat,
    gen: nat,                  // how many semaphores were made before this one
    free: int,                 // the value of the current semaphore
    ops: seq<Op>,              // every call so far, in order of arrival
    operations: map<string, Bucket>,
    queued: int, running: int, completed: int, failed: int,
    saturated: int, cancelled: int, deadlines: int)
  {
    function Capacity(): nat { maxWorkers + maxQueued }
  }

  // What can happen to one call.
  datatype Action =
    | Refuse(expired: bool)     // no permit before the admission timeout
    | AbandonAdmission          // the caller was cancelled while waiting
    | Acquire
    | Expire                    // the budget ran out during admission
    | Submit
    | PoolAccept
    | PoolRefuse
    | Claim
    | Begin
    | Raise
    | Unwind
    | Complete
    | GiveUp(timedOut: bool)    // the awaiting caller stops waiting
    | Deliver                   // the awaiting caller got its answer
    | Callback
    | Release

  datatype Event =
    | Arrive(name: string)
    | On(i: nat, act: Action)
    | Rebind                    // a fresh loop takes over

  // ------------------------------------------------------------------ buckets

  // The bucket a label is accounted under, given the buckets that exist.
  function BucketOf(known: set<string>, name: string): string {
    if name in known then name
    else if |known| < BUCKET_LIMIT then name
    else OVERFLOW_LABEL
  }

  function Touch(operations: map<string, Bucket>, name: string): map<string, Bucket> {
    if name in operations then operations else operations[name := Bucket(0, 0, 0)]
  }

  // ------------------------------------------------------------- classification

  // The populations the counters are meant to count.
  datatype Class =
    | Holding(gen: nat)
    | Unstarted
    | InFunction
    | OnWorker
    | Ended(fate: Fate)
    | SubmittedAs(bucket: string)
    | EndedAs(bucket: string, fate: Fate)
    | InFlightAs(bucket: string)
    | Hears(told: Told)

  predicate HoldsPermit(s: Stage) {
    !s.Waiting? && !s.Refused? && !s.Returned?
  }

  predicate WasSubmitted(s: Stage) {
    match s
    case Waiting | Refused | Admitted => false
    case Finished(f) => f != NeverSubmitted
    case Returning(f) => f != NeverSubmitted
    case Returned(f) => f != NeverSubmitted
    case _ => true
  }

  // The fate already counted in `completed`, `failed` or nowhere.
  predicate Settled(s: Stage, f: Fate) {
    (s.Raised? && f == Failed) || ((s.Finished? || s.Returning? || s.Returned?) && s.fate == f)
  }

  predicate NotBegun(s: Stage) {
    s.Counted? || s.Pending? || s.Claimed? || s == Finished(NeverStarted)
  }

  predicate Terminal(s: Stage) { s.Refused? || s.Returned? }

  predicate Belongs(o: Op, c: Class) {
    match c
    case Holding(g) => o.gen == g && HoldsPermit(o.stage)
    case Unstarted => NotBegun(o.stage)
    case InFunction => o.stage.Running? || o.stage.Raised?
    case OnWorker => o.stage.Claimed? || o.stage.Running? || o.stage.Raised? || o.stage.Unwound?
    case Ended(f) => Settled(o.stage, f)
    case SubmittedAs(b) => WasSubmitted(o.stage) && o.bucket == b
    case EndedAs(b, f) => WasSubmitted(o.stage) && o.bucket == b && Settled(o.stage, f)
    case InFlightAs(b) =>
      WasSubmitted(o.stage) && o.bucket == b &&
      !Settled(o.stage, Succeeded) && !Settled(o.stage, Failed) && !Settled(o.stage, NeverStarted)
    case Hears(t) => o.told == t
  }

  function One(o: Op, c: Class): nat { if Belongs(o, c) then 1 else 0 }

  function Tally(ops: seq<Op>, c: Class): nat {
    if ops == [] then 0 else Tally(ops[..|ops|-1], c) + One(ops[|ops|-1], c)
  }

  // --------------------------------------------------------------- transitions

  // The call is where the action can happen to it.
  predicate Ready(o: Op, a: Action) {
    match a
    case Refuse(_) => o.stage.Waiting?
    case AbandonAdmission => o.stage.Waiting?
    case Acquire => o.stage.Waiting?
    case Expire => o.stage.Admitted?
    case Submit => o.stage.Admitted?
    case PoolAccept => o.stage.Counted?
    case PoolRefuse => o.stage.Counted?
    case Claim => o.stage.Pending?
    case Begin => o.stage.Claimed?
    case Raise => o.stage.Running?
    case Unwind => o.stage.Running? || o.stage.Raised?
    case Complete => o.stage.Unwound?
    case GiveUp(_) => o.watched
    case Deliver => o.watched && (o.stage.Finished? || o.stage.Returning? || o.stage.Returned?)
    case Callback => o.stage.Finished?
    case Release => o.stage.Returning?
  }

  predicate Enabled(s: State, e: Event) {
    match e
    case Arrive(_) => true
    case Rebind => s.queued == 0 && s.running == 0 && LoopGone(s.ops)
    case On(i, a) =>
      && i < |s.ops| && Ready(s.ops[i], a) && OnItsLoop(s.ops[i], s.gen, a)
      && (a.Acquire? ==> s.free > 0)
      && (a.Claim? ==> Tally(s.ops, OnWorker) < s.maxWorkers)
  }

  // A closed loop has no call left between its admission and its submission; it may have
  // left calls waiting for a permit.
  predicate LoopGone(ops: seq<Op>) {
    forall i :: 0 <= i < |ops| ==> !ops[i].stage.Admitted? && !ops[i].stage.Counted?
  }

  // A call left waiting on a closed loop is given nothing any more; it can only be dropped.
  predicate OnItsLoop(o: Op, gen: nat, a: Action) {
    o.stage.Waiting? && o.gen != gen ==> !a.Acquire? && !a.Refuse?
  }

  // The call afterwards; `bucket` is where a submission is filed.
  function After(o: Op, a: Action, bucket: string): Op
    requires Ready(o, a)
  {
    match a
    case Refuse(expired) => o.(stage := Refused, told := if expired then Expired else Saturated)
    case AbandonAdmission => o.(stage := Refused, told := Withdrawn)
    case Acquire => o.(stage := Admitted)
    case Expire => o.(stage := Returned(NeverSubmitted), releases := o.releases + 1, told := Expired)
    case Submit => o.(stage := Counted, bucket := bucket)
    case PoolAccept => o.(stage := Pending, watched := true)
    case PoolRefuse => o.(stage := Returned(NeverStarted), releases := o.releases + 1, told := Answered)
    case Claim => o.(stage := Claimed)
    case Begin => o.(stage := Running, started := true)
    case Raise => o.(stage := Raised)
    case Unwind => o.(stage := if o.stage.Raised? then Finished(Failed) else Unwound)
    case Complete => o.(stage := Finished(Succeeded))
    case GiveUp(timedOut) =>
      o.(stage := if o.stage.Pending? then Finished(NeverStarted) else o.stage,
         watched := false, told := if timedOut then Expired else Cancelled)
    case Deliver => o.(watched := false, told := Answered)
    case Callback => o.(stage := Returning(o.stage.fate))
    case Release => o.(stage := Returned(o.stage.fate), releases := o.releases + 1)
  }

  // What the action adds to the counters.
  datatype Change = Change(free: int, queued: int, running: int, completed: int, failed: int)

  function Effect(o: Op, gen: nat, a: Action): Change {
    match a
    case Acquire => Change(-1, 0, 0, 0, 0)
    case Expire => Change(1, 0, 0, 0, 0)
    case Submit => Change(0, 1, 0, 0, 0)
    case PoolRefuse => Change(1, -1, 0, 0, 0)
    case Begin => Change(0, -1, 1, 0, 0)
    case Raise => Change(0, 0, 0, 0, 1)
    case Unwind => Change(0, 0, -1, 0, 0)
    case Complete => Change(0, 0, 0, 1, 0)
    case Callback => Change(0, if o.started then 0 else -1, 0, 0, 0)
    case Release => Change(if o.gen == gen then 1 else 0, 0, 0, 0, 0)
    case _ => Change(0, 0, 0, 0, 0)
  }

  // What the action writes under the label's bucket.
  function Booked(operations: map<string, Bucket>, b: string, a: Action): map<string, Bucket> {
    var m := Touch(operations, b);
    if a.Submit? then m[b := m[b].(submitted := m[b].submitted + 1)]
    else if a.Complete? then m[b := m[b].(completed := m[b].completed + 1)]
    else if a.Raise? then m[b := m[b].(failed := m[b].failed + 1)]
    else if a.Begin? || a.Unwind? then m
    else operations
  }

  function Next(s: State, e: Event): State
    requires Enabled(s, e)
  {
    match e
    case Arrive(name) =>
      s.(ops := s.ops + [Op(name, "", s.gen, Waiting, false, false, 0, Nothing)])
    case Rebind =>
      s.(gen := s.gen + 1, free := s.Capacity())
    case On(i, a) =>
      var b := BucketOf(s.operations.Keys, s.ops[i].name);
      var d := Effect(s.ops[i], s.gen, a);
      s.(ops := s.ops[i := After(s.ops[i], a, b)],
         operations := Booked(s.operations, b, a),
         free := s.free + d.free, queued := s.queued + d.queued, running := s.running + d.running,
         completed := s.completed + d.completed, failed := s.failed + d.failed,
         saturated := if a == Refuse(false) then s.saturated + 1 else s.saturated,
         cancelled := if a == GiveUp(false) then s.cancelled + 1 else s.cancelled,
         deadlines := if a == Expire || a == Refuse(true) || a == GiveUp(true)
                      then s.deadlines + 1 else s.deadlines)
  }

  // A run; an event that is not enabled where it stands changes nothing.
  function Run(s: State, es: seq<Event>): State
    decreases |es|
  {
    if es == [] then s else Run(if Enabled(s, es[0]) then Next(s, es[0]) else s, es[1..])
  }

  lemma {:induction false} RunExtend(s: State, es: seq<Event>, e: Event)
    requires Enabled(Run(s, es), e)
    ensures Run(s, es + [e]) == Next(Run(s, es), e)
    decreases |es|
  {
    if es == [] {
      assert (es + [e])[1..] == [];
    } else {
      assert (es + [e])[1..] == es[1..] + [e];
      RunExtend(if Enabled(s, es[0]) then Next(s, es[0]) else s, es[1..], e);
    }
  }

  function Init(maxWorkers: nat, maxQueued: nat): State {
    State(maxWorkers, maxQueued, 0, maxWorkers + maxQueued, [], map[], 0, 0, 0, 0, 0, 0, 0)
  }

  // ----------------------------------------------------------------- invariant

  predicate StageOk(o: Op, gen: nat) {
    && o.gen <= gen
    && (o.gen < gen ==> !o.stage.Admitted? && !NotBegun(o.stage) && !o.stage.Running? && !o.stage.Raised?)
    && o.releases == (if o.stage.Returned? then 1 else 0)
    && (o.started <==> WasSubmitted(o.stage) && !NotBegun(o.stage) && !Settled(o.stage, NeverStarted))
    && o.stage != Finished(NeverSubmitted) && o.stage != Returning(NeverSubmitted)
    && (o.watched ==> WasSubmitted(o.stage) && !o.stage.Counted?)
  }

  // A caller has heard nothing yet exactly if it waits, for a permit or for the future.
  predicate ToldOk(o: Op) {
    && (o.watched ==> WasSubmitted(o.stage) && !o.stage.Counted? && o.told == Nothing)
    && (o.stage.Pending? ==> o.watched)
    && (o.told == Nothing ==> o.watched || o.stage.Waiting? || o.stage.Admitted? || o.stage.Counted?)
    && (o.stage.Waiting? || o.stage.Admitted? || o.stage.Counted? ==> o.told == Nothing)
    && (o.told == Saturated || o.told == Withdrawn ==> o.stage.Refused?)
    && (o.told == Cancelled ==> WasSubmitted(o.stage))
  }

  predicate Filed(o: Op, known: set<string>) {
    WasSubmitted(o.stage) ==> o.bucket in known && o.bucket == BucketOf(known, o.name)
  }

  // A label has the bucket of its name if there is one or room for one among 64, and shares
  // the bucket of all others if not.
  lemma BucketIs(known: set<string>, name: string)
    ensures BucketOf(known, name) == if name in known || |known| < 64 then name else "other"
  {
  }

  ghost predicate BucketsOk(s: State) {
    forall b :: b in s.operations ==>
      && s.operations[b].submitted == Tally(s.ops, SubmittedAs(b))
      && s.operations[b].completed == Tally(s.ops, EndedAs(b, Succeeded))
      && s.operations[b].failed == Tally(s.ops, EndedAs(b, Failed))
  }

  predicate KeysBounded(known: set<string>) {
    |known| <= BUCKET_LIMIT || (|known| == BUCKET_LIMIT + 1 && OVERFLOW_LABEL in known)
  }

  predicate CountersOk(s: State) {
    && s.free + Tally(s.ops, Holding(s.gen)) == s.Capacity()
    && s.free >= 0
    && s.queued == Tally(s.ops, Unstarted)
    && s.running == Tally(s.ops, InFunction)
    && s.completed == Tally(s.ops, Ended(Succeeded))
    && s.failed == Tally(s.ops, Ended(Failed))
    && Tally(s.ops, OnWorker) <= s.maxWorkers
  }

  predicate RefusalsOk(s: State) {
    && s.saturated == Tally(s.ops, Hears(Saturated))
    && s.deadlines == Tally(s.ops, Hears(Expired))
    && s.cancelled == Tally(s.ops, Hears(Cancelled))
  }

  ghost predicate Inv(s: State) {
    && (forall i :: 0 <= i < |s.ops| ==>
          StageOk(s.ops[i], s.gen) && ToldOk(s.ops[i]) && Filed(s.ops[i], s.operations.Keys))
    && CountersOk(s)
    && RefusalsOk(s)
    && BucketsOk(s)
    && KeysBounded(s.operations.Keys)
  }

  // ------------------------------------------------------------ counting lemmas

  lemma {:induction false} TallyUpdate(ops: seq<Op>, i: nat, o: Op, c: Class)
    requires i < |ops|
    ensures Tally(ops[i := o], c) + One(ops[i], c) == Tally(ops, c) + One(o, c)
  {
    var n := |ops| - 1;
    if i == n {
      assert ops[i := o][..n] == ops[..n];
    } else {
      assert ops[i := o][..n] == ops[..n][i := o];
      TallyUpdate(ops[..n], i, o, c);
    }
  }

  lemma TallyAppend(ops: seq<Op>, o: Op, c: Class)
    ensures Tally(ops + [o], c) == Tally(ops, c) + One(o, c)
  {
    assert (ops + [o])[..|ops|] == ops;
  }

  lemma {:induction false} TallyZero(ops: seq<Op>, c: Class)
    requires forall i :: 0 <= i < |ops| ==> !Belongs(ops[i], c)
    ensures Tally(ops, c) == 0
  {
    if ops != [] {
      TallyZero(ops[..|ops|-1], c);
    }
  }

  lemma {:induction false} TallyPositive(ops: seq<Op>, c: Class, i: nat)
    requires i < |ops| && Belongs(ops[i], c)
    ensures Tally(ops, c) > 0
  {
    if i < |ops| - 1 {
      TallyPositive(ops[..|ops|-1], c, i);
    }
  }

  // Two disjoint classes inside a third.
  lemma {:induction false} TallyWithin(ops: seq<Op>, a: Class, b: Class, c: Class)
    requires forall i :: 0 <= i < |ops| ==> !(Belongs(ops[i], a) && Belongs(ops[i], b))
    requires forall i :: 0 <= i < |ops| && (Belongs(ops[i], a) || Belongs(ops[i], b)) ==> Belongs(ops[i], c)
    ensures Tally(ops, a) + Tally(ops, b) <= Tally(ops, c)
  {
    if ops != [] {
      TallyWithin(ops[..|ops|-1], a, b, c);
    }
  }

  lemma {:induction false} TallyLe(ops: seq<Op>, a: Class, c: Class)
    requires forall i :: 0 <= i < |ops| && Belongs(ops[i], a) ==> Belongs(ops[i], c)
    ensures Tally(ops, a) <= Tally(ops, c)
  {
    if ops != [] {
      TallyLe(ops[..|ops|-1], a, c);
    }
  }

  lemma {:induction false} TallyPartition(ops: seq<Op>, b: string)
    ensures Tally(ops, SubmittedAs(b))
         == Tally(ops, EndedAs(b, Succeeded)) + Tally(ops, EndedAs(b, Failed))
          + Tally(ops, EndedAs(b, NeverStarted)) + Tally(ops, InFlightAs(b))
  {
    if ops != [] {
      TallyPartition(ops[..|ops|-1], b);
    }
  }

  // ------------------------------------------------------------- preservation

  // One more bucket keeps the table within 64 named ones and the overflow one, and moves no
  // label that has one.
  lemma BucketsStable(known: set<string>, name: string)
    requires KeysBounded(known)
    ensures KeysBounded(known + {BucketOf(known, name)})
    ensures forall n :: BucketOf(known, n) in known ==>
              BucketOf(known + {BucketOf(known, name)}, n) == BucketOf(known, n)
    ensures BucketOf(known + {BucketOf(known, name)}, name) == BucketOf(known, name)
  {
    var b := BucketOf(known, name);
    if b in known {
      assert known + {b} == known;
    } else {
      assert |known + {b}| == |known| + 1;
    }
  }

  // Every counter moves by exactly what its population moves by.
  lemma EffectCounts(o: Op, gen: nat, a: Action, b: string)
    requires StageOk(o, gen) && Ready(o, a) && OnItsLoop(o, gen, a)
    ensures var o' := After(o, a, b); var d := Effect(o, gen, a);
      && StageOk(o', gen)
      && d.free == One(o, Holding(gen)) - One(o', Holding(gen))
      && d.queued == One(o', Unstarted) - One(o, Unstarted)
      && d.running == One(o', InFunction) - One(o, InFunction)
      && d.completed == One(o', Ended(Succeeded)) - One(o, Ended(Succeeded))
      && d.failed == One(o', Ended(Failed)) - One(o, Ended(Failed))
      && (One(o', OnWorker) > One(o, OnWorker) ==> a.Claim?)
  {
  }

  // ... and so do the counts of callers that were turned away, timed out or left.
  lemma ToldCounts(o: Op, a: Action, b: string)
    requires ToldOk(o) && Ready(o, a)
    ensures var o' := After(o, a, b);
      && ToldOk(o')
      && One(o', Hears(Saturated)) - One(o, Hears(Saturated)) == (if a == Refuse(false) then 1 else 0)
      && One(o', Hears(Expired)) - One(o, Hears(Expired))
         == (if a == Expire || a == Refuse(true) || a == GiveUp(true) then 1 else 0)
      && One(o', Hears(Cancelled)) - One(o, Hears(Cancelled)) == (if a == GiveUp(false) then 1 else 0)
      && (o.told != Nothing ==> o'.told == o.told)
  {
  }

  // An action files a call when it submits it and refiles none.
  lemma FilingOf(o: Op, gen: nat, a: Action, known: set<string>)
    requires StageOk(o, gen) && Ready(o, a) && Filed(o, known) && KeysBounded(known)
    ensures var b := BucketOf(known, o.name); var o' := After(o, a, b);
      && Filed(o', if a.Submit? then known + {b} else known)
      && (!a.Submit? ==> WasSubmitted(o'.stage) == WasSubmitted(o.stage) && o'.bucket == o.bucket)
      && (a.Submit? ==> !WasSubmitted(o.stage) && WasSubmitted(o'.stage) && o'.bucket == b && o'.stage == Counted)
      && (a.Begin? || a.Unwind? || a.Complete? || a.Raise? ==> b == o.bucket && b in known)
      && (Settled(o'.stage, Succeeded) <==> Settled(o.stage, Succeeded) || a.Complete?)
      && (Settled(o'.stage, Failed) <==> Settled(o.stage, Failed) || a.Raise?)
      && (a.Complete? ==> !Settled(o.stage, Succeeded))
      && (a.Raise? ==> !Settled(o.stage, Failed))
  {
    BucketsStable(known, o.name);
  }

  lemma CallOk(s: State, i: nat)
    requires Inv(s) && i < |s.ops|
    ensures StageOk(s.ops[i], s.gen) && ToldOk(s.ops[i]) && CountersOk(s)
  {
  }

  lemma ActionKeepsCounters(s: State, i: nat, a: Action)
    requires Inv(s) && Enabled(s, On(i, a))
    ensures CountersOk(Next(s, On(i, a)))
  {
    var o := s.ops[i];
    var b := BucketOf(s.operations.Keys, o.name);
    var o' := After(o, a, b);
    hide StageOk, ToldOk, Filed, BucketsOk, RefusalsOk, Belongs, After, Effect, Tally;
    CallOk(s, i);
    EffectCounts(o, s.gen, a, b);
    TallyUpdate(s.ops, i, o', Holding(s.gen));
    TallyUpdate(s.ops, i, o', Unstarted);
    TallyUpdate(s.ops, i, o', InFunction);
    TallyUpdate(s.ops, i, o', OnWorker);
    TallyUpdate(s.ops, i, o', Ended(Succeeded));
    TallyUpdate(s.ops, i, o', Ended(Failed));
  }

  lemma ActionKeepsRefusals(s: State, i: nat, a: Action)
    requires Inv(s) && Enabled(s, On(i, a))
    ensures RefusalsOk(Next(s, On(i, a)))
  {
    var o := s.ops[i];
    var b := BucketOf(s.operations.Keys, o.name);
    var o' := After(o, a, b);
    ToldCounts(o, a, b);
    TallyUpdate(s.ops, i, o', Hears(Saturated));
    TallyUpdate(s.ops, i, o', Hears(Expired));
    TallyUpdate(s.ops, i, o', Hears(Cancelled));
  }

  // A bucket that does not exist yet has no call filed under it.
  lemma NewBucketEmpty(s: State, b: string)
    requires Inv(s) && b !in s.operations
    ensures Tally(s.ops, SubmittedAs(b)) == 0
    ensures forall f :: Tally(s.ops, EndedAs(b, f)) == 0
  {
    TallyZero(s.ops, SubmittedAs(b));
    forall f ensures Tally(s.ops, EndedAs(b, f)) == 0 {
      TallyZero(s.ops, EndedAs(b, f));
    }
  }

  // What a bucket reads, an absent one reading zero.
  function Read(m: map<string, Bucket>, b: string): Bucket {
    if b in m then m[b] else Bucket(0, 0, 0)
  }

  lemma BookedReads(m: map<string, Bucket>, b: string, a: Action, c: string)
    requires a.Begin? || a.Unwind? || a.Complete? || a.Raise? ==> b in m
    ensures Booked(m, b, a).Keys == (if a.Submit? then m.Keys + {b} else m.Keys)
    ensures var r := Read(m, c); var r' := Read(Booked(m, b, a), c);
      && r'.submitted == r.submitted + (if a.Submit? && c == b then 1 else 0)
      && r'.completed == r.completed + (if a.Complete? && c == b then 1 else 0)
      && r'.failed == r.failed + (if a.Raise? && c == b then 1 else 0)
  {
  }

  ghost predicate ReadsOk(m: map<string, Bucket>, ops: seq<Op>, b: string) {
    && Read(m, b).submitted == Tally(ops, SubmittedAs(b))
    && Read(m, b).completed == Tally(ops, EndedAs(b, Succeeded))
    && Read(m, b).failed == Tally(ops, EndedAs(b, Failed))
  }

  lemma BucketReadsOk(s: State, b: string)
    requires Inv(s)
    ensures ReadsOk(s.operations, s.ops, b)
  {
    if b !in s.operations { NewBucketEmpty(s, b); }
  }

  lemma ReadsStayOk(m: map<string, Bucket>, ops: seq<Op>, gen: nat, i: nat, a: Action, c: string)
    requires i < |ops| && Ready(ops[i], a) && StageOk(ops[i], gen) && Filed(ops[i], m.Keys) && KeysBounded(m.Keys)
    requires ReadsOk(m, ops, c)
    ensures var b := BucketOf(m.Keys, ops[i].name);
            ReadsOk(Booked(m, b, a), ops[i := After(ops[i], a, b)], c)
  {
    var b := BucketOf(m.Keys, ops[i].name);
    var o' := After(ops[i], a, b);
    FilingOf(ops[i], gen, a, m.Keys);
    BookedReads(m, b, a, c);
    TallyUpdate(ops, i, o', SubmittedAs(c));
    TallyUpdate(ops, i, o', EndedAs(c, Succeeded));
    TallyUpdate(ops, i, o', EndedAs(c, Failed));
  }

  lemma ActionKeepsBuckets(s: State, i: nat, a: Action)
    requires Inv(s) && Enabled(s, On(i, a))
    ensures BucketsOk(Next(s, On(i, a)))
  {
    var s' := Next(s, On(i, a));
    forall b | b in s'.operations ensures ReadsOk(s'.operations, s'.ops, b) {
      BucketReadsOk(s, b);
      ReadsStayOk(s.operations, s.ops, s.gen, i, a, b);
    }
  }

  lemma OpsStayFiled(ops: seq<Op>, gen: nat, known: set<string>, i: nat, a: Action)
    requires i < |ops| && Ready(ops[i], a) && OnItsLoop(ops[i], gen, a) && KeysBounded(known)
    requires forall j :: 0 <= j < |ops| ==> StageOk(ops[j], gen) && ToldOk(ops[j]) && Filed(ops[j], known)
    ensures var b := BucketOf(known, ops[i].name);
      var ops' := ops[i := After(ops[i], a, b)]; var known' := if a.Submit? then known + {b} else known;
      && KeysBounded(known')
      && forall j :: 0 <= j < |ops'| ==> StageOk(ops'[j], gen) && ToldOk(ops'[j]) && Filed(ops'[j], known')
  {
    var b := BucketOf(known, ops[i].name);
    EffectCounts(ops[i], gen, a, b);
    ToldCounts(ops[i], a, b);
    FilingOf(ops[i], gen, a, known);
    BucketsStable(known, ops[i].name);
  }

  lemma ActionKeepsOps(s: State, i: nat, a: Action)
    requires Inv(s) && Enabled(s, On(i, a))
    ensures var s' := Next(s, On(i, a));
      && KeysBounded(s'.operations.Keys)
      && forall j :: 0 <= j < |s'.ops| ==>
           StageOk(s'.ops[j], s'.gen) && ToldOk(s'.ops[j]) && Filed(s'.ops[j], s'.operations.Keys)
  {
    OpsStayFiled(s.ops, s.gen, s.operations.Keys, i, a);
    FilingOf(s.ops[i], s.gen, a, s.operations.Keys);
    BookedReads(s.operations, BucketOf(s.operations.Keys, s.ops[i].name), a, "");
  }

  lemma ArriveKeepsInv(s: State, name: string)
    requires Inv(s)
    ensures Inv(Next(s, Arrive(name)))
  {
    var s' := Next(s, Arrive(name));
    var o := s'.ops[|s.ops|];
    forall c ensures Tally(s'.ops, c) == Tally(s.ops, c) + One(o, c) {
      TallyAppend(s.ops, o, c);
    }
  }

  lemma RebindKeepsInv(s: State)
    requires Inv(s) && Enabled(s, Rebind)
    ensures Inv(Next(s, Rebind))
  {
    var s' := Next(s, Rebind);
    forall j | 0 <= j < |s.ops| ensures StageOk(s.ops[j], s'.gen) && !Belongs(s.ops[j], Holding(s'.gen)) {
      if NotBegun(s.ops[j].stage) { TallyPositive(s.ops, Unstarted, j); }
      if s.ops[j].stage.Running? || s.ops[j].stage.Raised? { TallyPositive(s.ops, InFunction, j); }
    }
    TallyZero(s.ops, Holding(s'.gen));
  }

  lemma NextKeepsInv(s: State, e: Event)
    requires Inv(s) && Enabled(s, e)
    ensures Inv(Next(s, e))
  {
    match e
    case Arrive(name) => ArriveKeepsInv(s, name);
    case Rebind => RebindKeepsInv(s);
    case On(i, a) =>
      ActionKeepsOps(s, i, a);
      ActionKeepsCounters(s, i, a);
      ActionKeepsRefusals(s, i, a);
      ActionKeepsBuckets(s, i, a);
  }

  // A submitted call keeps its name and its bucket, and the buckets stay what they are.
  lemma SubmittedStays(s: State, e: Event, i: nat)
    requires Inv(s) && Enabled(s, e) && i < |s.ops| && WasSubmitted(s.ops[i].stage)
    ensures var s' := Next(s, e);
      && i < |s'.ops| && WasSubmitted(s'.ops[i].stage)
      && s'.ops[i].bucket == s.ops[i].bucket && s'.ops[i].name == s.ops[i].name
  {
    if e.On? { FilingOf(s.ops[e.i], s.gen, e.act, s.operations.Keys); }
  }

  lemma {:induction false} SubmittedStaysFiled(s: State, es: seq<Event>, i: nat)
    requires Inv(s) && i < |s.ops| && WasSubmitted(s.ops[i].stage)
    ensures var t := Run(s, es);
      && Inv(t) && i < |t.ops| && WasSubmitted(t.ops[i].stage)
      && t.ops[i].bucket == s.ops[i].bucket && t.ops[i].name == s.ops[i].name
    decreases |es|
  {
    hide Next, Enabled, Inv, WasSubmitted;
    if es != [] {
      if Enabled(s, es[0]) {
        NextKeepsInv(s, es[0]);
        SubmittedStays(s, es[0], i);
        SubmittedStaysFiled(Next(s, es[0]), es[1..], i);
      } else {
        SubmittedStaysFiled(s, es[1..], i);
      }
    }
  }

  lemma {:induction false} RunKeepsInv(s: State, es: seq<Event>)
    requires Inv(s)
    ensures Inv(Run(s, es))
    decreases |es|
  {
    if es != [] {
      if Enabled(s, es[0]) { NextKeepsInv(s, es[0]); }
      RunKeepsInv(if Enabled(s, es[0]) then Next(s, es[0]) else s, es[1..]);
    }
  }

  // ------------------------------------------------------------- main results

  // Every interleaving conserves the permits, and the two gauges are the real
  // numbers of unstarted and running calls, together never above capacity.
  lemma PermitsConserved(w: nat, q: nat, es: seq<Event>)
    ensures var s := Run(Init(w, q), es);
      && s.free + Tally(s.ops, Holding(s.gen)) == w + q && 0 <= s.free <= w + q
      && s.queued == Tally(s.ops, Unstarted) && s.running == Tally(s.ops, InFunction)
      && s.queued + s.running + s.free <= w + q && s.running <= w
  {
    var s := Run(Init(w, q), es);
    RunKeepsInv(Init(w, q), es);
    RunKeepsSize(Init(w, q), es);
    TallyWithin(s.ops, Unstarted, InFunction, Holding(s.gen));
    TallyLe(s.ops, InFunction, OnWorker);
  }

  lemma {:induction false} RunKeepsSize(s: State, es: seq<Event>)
    ensures Run(s, es).maxWorkers == s.maxWorkers && Run(s, es).maxQueued == s.maxQueued
    decreases |es|
  {
    if es != [] {
      RunKeepsSize(if Enabled(s, es[0]) then Next(s, es[0]) else s, es[1..]);
    }
  }

  // A call's permit is released once it is given back and at no other time, on
  // whichever of the paths it takes: expiry, a refusing pool, cancellation before
  // the start, or completion.
  lemma PermitReturnedOnce(w: nat, q: nat, es: seq<Event>, i: nat)
    requires i < |Run(Init(w, q), es).ops|
    ensures var o := Run(Init(w, q), es).ops[i];
      && (o.releases == 1 <==> o.stage.Returned?)
      && (o.releases == 0 <==> !o.stage.Returned?)
      && (o.stage == Returned(NeverStarted) ==> !o.started)
      && (o.stage == Returned(Succeeded) || o.stage == Returned(Failed) ==> o.started)
  {
    RunKeepsInv(Init(w, q), es);
  }

  // The label table is bounded and every bucket's books balance.
  lemma LabelBooksBalance(w: nat, q: nat, es: seq<Event>, b: string)
    ensures var s := Run(Init(w, q), es);
      && |s.operations| <= 65
      && (b in s.operations ==>
            s.operations[b].submitted
            == s.operations[b].completed + s.operations[b].failed
             + Tally(s.ops, EndedAs(b, NeverStarted)) + Tally(s.ops, InFlightAs(b)))
  {
    var s := Run(Init(w, q), es);
    RunKeepsInv(Init(w, q), es);
    TallyPartition(s.ops, b);
    assert |s.operations| == |s.operations.Keys|;
  }

  // Once a call is submitted, every call of its name that ever is submitted, before or after
  // it, is filed under its bucket: 64 names have one of their own and the rest share one.
  lemma OneBucketPerName(w: nat, q: nat, es: seq<Event>, more: seq<Event>, i: nat, j: nat)
    requires i < |Run(Init(w, q), es).ops| && WasSubmitted(Run(Init(w, q), es).ops[i].stage)
    requires j < |Run(Run(Init(w, q), es), more).ops|
    requires WasSubmitted(Run(Run(Init(w, q), es), more).ops[j].stage)
    requires Run(Run(Init(w, q), es), more).ops[j].name == Run(Init(w, q), es).ops[i].name
    ensures var bucket := Run(Init(w, q), es).ops[i].bucket;
      && Run(Run(Init(w, q), es), more).ops[j].bucket == bucket
      && (bucket == Run(Init(w, q), es).ops[i].name || bucket == OVERFLOW_LABEL)
  {
    RunKeepsInv(Init(w, q), es);
    var s := Run(Init(w, q), es);
    SubmittedStaysFiled(s, more, i);
    var t := Run(s, more);
    assert Filed(t.ops[i], t.operations.Keys) && Filed(t.ops[j], t.operations.Keys);
  }

  // ------------------------------------------------------ what callers are told

  lemma ToldStaysStep(s: State, e: Event, i: nat)
    requires Inv(s) && Enabled(s, e) && i < |s.ops| && s.ops[i].told != Nothing
    ensures i < |Next(s, e).ops| && Next(s, e).ops[i].told == s.ops[i].told
  {
    if e.On? { ToldCounts(s.ops[e.i], e.act, BucketOf(s.operations.Keys, s.ops[e.i].name)); }
  }

  // A caller hears one thing, once.
  lemma {:induction false} ToldOnce(s: State, es: seq<Event>, i: nat)
    requires Inv(s) && i < |s.ops| && s.ops[i].told != Nothing
    ensures i < |Run(s, es).ops| && Run(s, es).ops[i].told == s.ops[i].told
    decreases |es|
  {
    hide Next, Enabled, Inv;
    if es != [] {
      if Enabled(s, es[0]) {
        NextKeepsInv(s, es[0]);
        ToldStaysStep(s, es[0], i);
        ToldOnce(Next(s, es[0]), es[1..], i);
      } else {
        ToldOnce(s, es[1..], i);
      }
    }
  }

  // The three refusal counters are the numbers of callers that heard so; one that found the
  // runtime saturated never held a permit, and none awaits a future it has heard about.
  lemma RefusalsCounted(w: nat, q: nat, es: seq<Event>, i: nat)
    requires i < |Run(Init(w, q), es).ops|
    ensures var s := Run(Init(w, q), es); var o := s.ops[i];
      && s.saturated == Tally(s.ops, Hears(Saturated))
      && s.deadlines == Tally(s.ops, Hears(Expired))
      && s.cancelled == Tally(s.ops, Hears(Cancelled))
      && (o.told == Saturated ==> o.stage == Refused)
      && (o.told == Cancelled ==> WasSubmitted(o.stage))
      && (o.told == Nothing <==> o.watched || o.stage == Waiting || o.stage == Admitted || o.stage == Counted)
  {
    RunKeepsInv(Init(w, q), es);
  }

  // ----------------------------------------------------------- giving up on a call

  // Work the pool has queued has a caller that awaits it.
  lemma PendingIsWatched(w: nat, q: nat, es: seq<Event>, i: nat)
    requires i < |Run(Init(w, q), es).ops| && Run(Init(w, q), es).ops[i].stage == Pending
    ensures Run(Init(w, q), es).ops[i].watched && !Run(Init(w, q), es).ops[i].started
  {
    RunKeepsInv(Init(w, q), es);
  }

  predicate NeverRan(o: Op) {
    !o.started && o.stage in {Finished(NeverStarted), Returning(NeverStarted), Returned(NeverStarted)}
  }

  lemma NeverRanStep(s: State, e: Event, i: nat)
    requires Enabled(s, e) && i < |s.ops| && NeverRan(s.ops[i])
    ensures i < |Next(s, e).ops| && NeverRan(Next(s, e).ops[i])
  {
  }

  lemma {:induction false} NeverRanStays(s: State, es: seq<Event>, i: nat)
    requires i < |s.ops| && NeverRan(s.ops[i])
    ensures i < |Run(s, es).ops| && NeverRan(Run(s, es).ops[i])
    decreases |es|
  {
    hide Next, Enabled, NeverRan;
    if es != [] {
      if Enabled(s, es[0]) {
        NeverRanStep(s, es[0], i);
        NeverRanStays(Next(s, es[0]), es[1..], i);
      } else {
        NeverRanStays(s, es[1..], i);
      }
    }
  }

  // A caller that gives up on work no worker has claimed takes it back: whatever happens
  // afterwards it is never started.
  lemma GivenUpNeverStarts(w: nat, q: nat, es: seq<Event>, i: nat, timedOut: bool, more: seq<Event>)
    requires i < |Run(Init(w, q), es).ops| && Run(Init(w, q), es).ops[i].stage == Pending
    ensures var s := Run(Init(w, q), es);
      && Enabled(s, On(i, GiveUp(timedOut)))
      && var t := Run(Next(s, On(i, GiveUp(timedOut))), more);
         i < |t.ops| && !t.ops[i].started
         && t.ops[i].stage in {Finished(NeverStarted), Returning(NeverStarted), Returned(NeverStarted)}
  {
    hide Run;
    PendingIsWatched(w, q, es, i);
    var s := Run(Init(w, q), es);
    NeverRanStays(Next(s, On(i, GiveUp(timedOut))), more, i);
  }

  // Past the pool's queue, where a cancellation comes too late.
  predicate Claimable(s: Stage) { s.Waiting? || s.Refused? || s.Admitted? || s.Counted? || s.Pending? }

  // The same runtime but for what the caller of `i` has heard and what was counted for it.
  ghost predicate SameWork(s: State, t: State, i: nat) {
    && i < |s.ops| && |t.ops| == |s.ops| && !Claimable(s.ops[i].stage)
    && t.ops[i] == s.ops[i].(watched := t.ops[i].watched, told := t.ops[i].told)
    && (t.ops[i].watched ==> s.ops[i].watched)
    && t == s.(ops := s.ops[i := t.ops[i]], cancelled := t.cancelled, deadlines := t.deadlines)
  }

  // Only the caller's own steps tell the two apart.
  predicate CallersStep(e: Event, i: nat) {
    e.On? && e.i == i && (e.act.GiveUp? || e.act.Deliver?)
  }

  lemma SameEnabled(s: State, t: State, i: nat, e: Event)
    requires SameWork(s, t, i) && !CallersStep(e, i)
    ensures Enabled(s, e) <==> Enabled(t, e)
  {
    TallyUpdate(s.ops, i, t.ops[i], OnWorker);
    assert t.ops == s.ops[i := t.ops[i]];
    forall j | 0 <= j < |s.ops| ensures t.ops[j].stage == s.ops[j].stage && t.ops[j].gen == s.ops[j].gen {
      if j != i { assert t.ops[j] == s.ops[j]; }
    }
  }

  lemma SameStep(s: State, t: State, i: nat, e: Event)
    requires SameWork(s, t, i) && !CallersStep(e, i) && Enabled(s, e) && Enabled(t, e)
    ensures SameWork(Next(s, e), Next(t, e), i)
  {
    var s', t' := Next(s, e), Next(t, e);
    if e.On? {
      var b := BucketOf(s.operations.Keys, s.ops[e.i].name);
      assert t.ops[e.i] == s.ops[e.i].(watched := t.ops[e.i].watched, told := t.ops[e.i].told);
      SameAfter(s.ops[e.i], t.ops[e.i], s.gen, e.act, b);
      assert t'.ops == t.ops[e.i := After(t.ops[e.i], e.act, b)];
      assert s'.ops == s.ops[e.i := After(s.ops[e.i], e.act, b)];
      assert t'.ops[i] == s'.ops[i].(watched := t'.ops[i].watched, told := t'.ops[i].told);
    } else {
      assert s'.ops[i] == s.ops[i] && t'.ops[i] == t.ops[i];
    }
    assert t'.ops == s'.ops[i := t'.ops[i]];
  }

  // What the caller of a call has heard changes nothing in what the call does next.
  lemma SameAfter(o: Op, p: Op, gen: nat, a: Action, b: string)
    requires Ready(o, a) && Ready(p, a) && p == o.(watched := p.watched, told := p.told)
    ensures Effect(o, gen, a) == Effect(p, gen, a)
    ensures After(p, a, b) == After(o, a, b).(watched := After(p, a, b).watched, told := After(p, a, b).told)
    ensures o == p ==> After(o, a, b) == After(p, a, b)
    ensures !a.PoolAccept? && (p.watched ==> o.watched) ==> (After(p, a, b).watched ==> After(o, a, b).watched)
    ensures !Claimable(o.stage) ==> !Claimable(After(o, a, b).stage)
  {
  }

  lemma CallerLeaves(s: State, t: State, i: nat, e: Event)
    requires SameWork(s, t, i) && CallersStep(e, i)
    ensures Enabled(t, e) ==> Enabled(s, e)
    ensures SameWork(if Enabled(s, e) then Next(s, e) else s, if Enabled(t, e) then Next(t, e) else t, i)
  {
    var s', t' := if Enabled(s, e) then Next(s, e) else s, if Enabled(t, e) then Next(t, e) else t;
    assert t'.ops == s'.ops[i := t'.ops[i]];
  }

  lemma {:induction false} SameRun(s: State, t: State, i: nat, es: seq<Event>)
    requires SameWork(s, t, i)
    ensures SameWork(Run(s, es), Run(t, es), i)
    decreases |es|
  {
    hide Next, Enabled, SameWork;
    if es != [] {
      var e := es[0];
      if CallersStep(e, i) {
        CallerLeaves(s, t, i, e);
      } else {
        SameEnabled(s, t, i, e);
        if Enabled(s, e) { SameStep(s, t, i, e); }
      }
      SameRun(if Enabled(s, e) then Next(s, e) else s, if Enabled(t, e) then Next(t, e) else t, i, es[1..]);
    }
  }

  // Once a worker has the work, a caller that gives up changes nothing of it: in every
  // continuation it is where it would have been, and so is everyone else.
  lemma GivingUpTooLate(s: State, i: nat, timedOut: bool, more: seq<Event>)
    requires i < |s.ops| && s.ops[i].watched && !Claimable(s.ops[i].stage)
    ensures var t, u := Run(Next(s, On(i, GiveUp(timedOut))), more), Run(s, more);
      && |t.ops| == |u.ops| > i
      && t.ops[i].stage == u.ops[i].stage && t.ops[i].started == u.ops[i].started
      && (forall j :: 0 <= j < |u.ops| && j != i ==> t.ops[j] == u.ops[j])
      && t.free == u.free && t.queued == u.queued && t.running == u.running
      && t.completed == u.completed && t.failed == u.failed && t.operations == u.operations
  {
    hide Run;
    var t := Next(s, On(i, GiveUp(timedOut)));
    assert t.ops == s.ops[i := t.ops[i]];
    SameRun(s, t, i, more);
  }

  ghost predicate DepthWithinQueue(w: nat, q: nat) {
    forall es :: Run(Init(w, q), es).queued <= q
  }

  // The depth gauge counts calls no worker has begun: it passes the size of the queue by at
  // most the workers that are not running.
  lemma DepthBounded(w: nat, q: nat, es: seq<Event>)
    ensures var s := Run(Init(w, q), es); s.queued <= q + (w - s.running)
  {
    PermitsConserved(w, q, es);
  }

  // `n` calls that were counted and not yet handed over.
  predicate AllCounted(s: State, w: nat, q: nat, n: nat) {
    && s.maxWorkers == w && s.maxQueued == q && |s.ops| == n && s.queued == n && s.free == w + q - n
  }

  lemma CountOneMore(s: State, w: nat, q: nat, n: nat, name: string)
    requires AllCounted(s, w, q, n) && n < w + q
    ensures Enabled(s, Arrive(name))
    ensures var s1 := Next(s, Arrive(name)); Enabled(s1, On(n, Acquire))
    ensures var s2 := Next(Next(s, Arrive(name)), On(n, Acquire)); Enabled(s2, On(n, Submit))
    ensures AllCounted(Next(Next(Next(s, Arrive(name)), On(n, Acquire)), On(n, Submit)), w, q, n + 1)
  {
  }

  // Every depth up to the whole capacity is reached.
  lemma {:induction false} DepthReached(w: nat, q: nat, n: nat) returns (es: seq<Event>)
    requires n <= w + q
    ensures AllCounted(Run(Init(w, q), es), w, q, n)
  {
    hide Next, Enabled, AllCounted;
    if n == 0 {
      es := [];
      assert AllCounted(Init(w, q), w, q, 0) by { NoneCounted(w, q); }
    } else {
      var before := DepthReached(w, q, n - 1);
      var s := Run(Init(w, q), before);
      CountOneMore(s, w, q, n - 1, "a");
      RunExtend(Init(w, q), before, Arrive("a"));
      RunExtend(Init(w, q), before + [Arrive("a")], On(n - 1, Acquire));
      RunExtend(Init(w, q), before + [Arrive("a")] + [On(n - 1, Acquire)], On(n - 1, Submit));
      es := before + [Arrive("a")] + [On(n - 1, Acquire)] + [On(n - 1, Submit)];
    }
  }

  lemma NoneCounted(w: nat, q: nat)
    ensures AllCounted(Init(w, q), w, q, 0)
  {
  }

  // Exactly which runtimes keep the depth within the queue they were configured with: none
  // that has a worker.
  lemma DepthWithinQueueIff(w: nat, q: nat)
    ensures DepthWithinQueue(w, q) <==> w == 0
  {
    if w == 0 {
      forall es ensures Run(Init(w, q), es).queued <= q { DepthBounded(w, q, es); PermitsConserved(w, q, es); }
    } else {
      var es := DepthReached(w, q, w + q);
      assert Run(Init(w, q), es).queued > q;
    }
  }

  // -------------------------------------------------------- nothing gets stuck

  function Rank(st: Stage): nat {
    match st
    case Waiting => 9
    case Admitted => 8
    case Counted => 7
    case Pending => 6
    case Claimed => 5
    case Running => 4
    case Raised => 3
    case Unwound => 3
    case Finished(_) => 2
    case Returning(_) => 1
    case Refused => 0
    case Returned(_) => 0
  }

  // A call that waited for a permit on a loop that is closed.
  predicate Stranded(o: Op, gen: nat) { o.stage.Waiting? && o.gen != gen }

  predicate AwaitsPermit(o: Op, gen: nat) { o.stage.Waiting? && o.gen == gen }

  // The step that serves a call: nobody cancels, refuses or lets a budget expire.  A stranded
  // call is dropped.
  function Serve(o: Op, gen: nat): Action
    requires !Terminal(o.stage)
  {
    match o.stage
    case Waiting => if o.gen == gen then Acquire else AbandonAdmission
    case Admitted => Submit
    case Counted => PoolAccept
    case Pending => Claim
    case Claimed => Begin
    case Running => Unwind
    case Raised => Unwind
    case Unwound => Complete
    case Finished(_) => Callback
    case Returning(_) => Release
  }

  function Work(ops: seq<Op>): nat {
    if ops == [] then 0 else Work(ops[..|ops|-1]) + Rank(ops[|ops|-1].stage)
  }

  lemma {:induction false} WorkUpdate(ops: seq<Op>, i: nat, o: Op)
    requires i < |ops|
    ensures Work(ops[i := o]) + Rank(ops[i].stage) == Work(ops) + Rank(o.stage)
  {
    var n := |ops| - 1;
    if i == n {
      assert ops[i := o][..n] == ops[..n];
    } else {
      assert ops[i := o][..n] == ops[..n][i := o];
      WorkUpdate(ops[..n], i, o);
    }
  }

  // While a call is unsettled some call can be served.
  lemma SomeCallCanBeServed(s: State) returns (i: nat)
    requires Inv(s) && s.maxWorkers > 0
    requires exists j :: 0 <= j < |s.ops| && !Terminal(s.ops[j].stage)
    ensures i < |s.ops| && !Terminal(s.ops[i].stage) && Enabled(s, On(i, Serve(s.ops[i], s.gen)))
  {
    if j :| 0 <= j < |s.ops| && Belongs(s.ops[j], OnWorker) {
      i := j;
    } else if j :| 0 <= j < |s.ops| && !Terminal(s.ops[j].stage) && !AwaitsPermit(s.ops[j], s.gen) {
      i := j;
      TallyZero(s.ops, OnWorker);
    } else {
      i :| 0 <= i < |s.ops| && !Terminal(s.ops[i].stage);
      TallyZero(s.ops, Holding(s.gen));
    }
  }

  // Refused already, or stranded, which comes to the same.
  predicate Lost(o: Op, gen: nat) { o.stage.Refused? || Stranded(o, gen) }

  ghost predicate AllServed(before: State, s: State) {
    && |s.ops| == |before.ops|
    && (forall i :: 0 <= i < |s.ops| ==>
          Terminal(s.ops[i].stage) && (s.ops[i].stage.Refused? <==> Lost(before.ops[i], before.gen)))
    && s.free == s.Capacity() && s.queued == 0 && s.running == 0
  }

  lemma ServeShrinks(ops: seq<Op>, gen: nat, i: nat, b: string)
    requires i < |ops| && !Terminal(ops[i].stage) && Ready(ops[i], Serve(ops[i], gen))
    ensures var ops' := ops[i := After(ops[i], Serve(ops[i], gen), b)];
      && Work(ops') < Work(ops)
      && forall j :: 0 <= j < |ops| ==> (Lost(ops'[j], gen) <==> Lost(ops[j], gen))
  {
    WorkUpdate(ops, i, After(ops[i], Serve(ops[i], gen), b));
  }

  ghost predicate Follows(s: State, s': State) {
    && Inv(s') && s'.maxWorkers == s.maxWorkers && s'.maxQueued == s.maxQueued
    && Work(s'.ops) < Work(s.ops) && |s'.ops| == |s.ops| && s'.gen == s.gen
    && forall j :: 0 <= j < |s.ops| ==> (Lost(s'.ops[j], s.gen) <==> Lost(s.ops[j], s.gen))
  }

  lemma ServeOne(s: State, i: nat)
    requires Inv(s) && i < |s.ops| && !Terminal(s.ops[i].stage) && Enabled(s, On(i, Serve(s.ops[i], s.gen)))
    ensures Follows(s, Next(s, On(i, Serve(s.ops[i], s.gen))))
  {
    var e := On(i, Serve(s.ops[i], s.gen));
    var s' := Next(s, e);
    ServeShrinks(s.ops, s.gen, i, BucketOf(s.operations.Keys, s.ops[i].name));
    assert Inv(s') by { NextKeepsInv(s, e); }
    assert s'.ops == s.ops[i := After(s.ops[i], e.act, BucketOf(s.operations.Keys, s.ops[i].name))];
  }

  lemma Drain(s: State) returns (es: seq<Event>)
    requires Inv(s) && s.maxWorkers > 0
    ensures AllServed(s, Run(s, es))
    decreases Work(s.ops)
  {
    if exists j :: 0 <= j < |s.ops| && !Terminal(s.ops[j].stage) {
      var i := SomeCallCanBeServed(s);
      var e := On(i, Serve(s.ops[i], s.gen));
      ServeOne(s, i);
      var rest := Drain(Next(s, e));
      es := [e] + rest;
      assert es[1..] == rest;
    } else {
      es := [];
      TallyZero(s.ops, Holding(s.gen));
      TallyZero(s.ops, Unstarted);
      TallyZero(s.ops, InFunction);
    }
  }

  // From every reachable state, whatever happened before, the workers alone can serve every
  // call that was not refused or stranded and bring every permit home.
  lemma EveryCallCanBeServed(w: nat, q: nat, es: seq<Event>)
    requires w > 0
    ensures var s := Run(Init(w, q), es); exists more :: AllServed(s, Run(s, more))
  {
    RunKeepsInv(Init(w, q), es);
    RunKeepsSize(Init(w, q), es);
    var more := Drain(Run(Init(w, q), es));
  }
}
