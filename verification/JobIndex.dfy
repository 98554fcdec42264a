/**
 The index from job to schedule: bounded, oldest out first, and read by taking.
 */
module JobIndex {
  import opened SchedulerModel

  class ScheduleJobIndex {
    const capacity: nat
    var byJob: seq<Link>

    constructor (capacity: nat)
      ensures byJob == [] && this.capacity == capacity
    {
      this.capacity := capacity;
      byJob := [];
    }

    method Remember(job: string, schedule: string)
      modifies this`byJob
      ensures byJob == SchedulerModel.Remember(old(byJob), capacity, job, schedule)
      ensures |byJob| <= capacity
    {
      byJob := Put(byJob, job, schedule);
      ghost var put := byJob;
      while |byJob| > capacity
        invariant |byJob| <= |put| && byJob == put[|put|-|byJob|..]
        invariant |byJob| >= capacity || byJob == put
      {
        byJob := byJob[1..];
      }
    }

    // The schedule that submitted the job, once.
    method Take(job: string) returns (schedule: Option<string>)
      modifies this`byJob
      ensures schedule == Find(old(byJob), job)
      ensures byJob == Remove(old(byJob), job)
    {
      schedule := Find(byJob, job);
      byJob := Remove(byJob, job);
    }

    method Reset()
      modifies this`byJob
      ensures byJob == []
    {
      byJob := [];
    }
  }

  // --------------------------------------------------------------- one job, one row

  ghost predicate OnePerJob(index: seq<Link>) {
    forall i, j :: 0 <= i < j < |index| ==> index[i].job != index[j].job
  }

  lemma {:induction false} FindIff(index: seq<Link>, job: string)
    ensures Find(index, job).Some? <==> exists i :: 0 <= i < |index| && index[i].job == job
    ensures Find(index, job).Some? ==> Link(job, Find(index, job).value) in index
  {
    if index != [] {
      FindIff(index[1..], job);
      assert index == [index[0]] + index[1..];
      assert forall i :: 0 < i < |index| ==> index[1..][i-1] == index[i];
    }
  }

  lemma {:induction false} PutRows(index: seq<Link>, job: string, schedule: string)
    requires OnePerJob(index)
    ensures OnePerJob(Put(index, job, schedule))
    ensures forall x :: x in Put(index, job, schedule) <==> x == Link(job, schedule) || (x in index && x.job != job)
  {
    if index != [] {
      var rest := index[1..];
      assert index == [index[0]] + rest;
      PutRows(rest, job, schedule);
      var p := Put(rest, job, schedule);
      forall i | 0 <= i < |p| && index[0].job != job ensures p[i].job != index[0].job { assert p[i] in p; }
    }
  }

  lemma {:induction false} RemoveRows(index: seq<Link>, job: string)
    requires OnePerJob(index)
    ensures OnePerJob(Remove(index, job))
    ensures forall x :: x in Remove(index, job) <==> x in index && x.job != job
  {
    if index != [] {
      var rest := index[1..];
      assert index == [index[0]] + rest;
      RemoveRows(rest, job);
      var r := Remove(rest, job);
      forall i | 0 <= i < |r| ensures r[i].job != index[0].job { assert r[i] in r; }
    }
  }

  lemma FittedRows(index: seq<Link>, capacity: nat)
    requires OnePerJob(index)
    ensures OnePerJob(Fitted(index, capacity)) && forall x :: x in Fitted(index, capacity) ==> x in index
  {
  }

  // ------------------------------------------------------------------- over a run

  datatype Op = Remembers(job: string, schedule: string) | Takes(job: string) | Resets

  // The index, and the answers given so far.
  datatype History = History(index: seq<Link>, given: seq<Link>)

  function After(ops: seq<Op>, capacity: nat): History {
    if |ops| == 0 then History([], [])
    else
      var h := After(ops[..|ops|-1], capacity);
      match ops[|ops|-1]
      case Remembers(job, schedule) => h.(index := SchedulerModel.Remember(h.index, capacity, job, schedule))
      case Takes(job) =>
        var s := Find(h.index, job);
        if s.None? then h else History(Remove(h.index, job), h.given + [Link(job, s.value)])
      case Resets => h.(index := [])
  }

  function Remembered(ops: seq<Op>, job: string): nat {
    if |ops| == 0 then 0
    else
      Remembered(ops[..|ops|-1], job)
      + (if ops[|ops|-1].Remembers? && ops[|ops|-1].job == job then 1 else 0)
  }

  function Given(given: seq<Link>, job: string): nat {
    if |given| == 0 then 0 else Given(given[..|given|-1], job) + (if given[|given|-1].job == job then 1 else 0)
  }

  function Held(index: seq<Link>, job: string): nat { if Find(index, job).Some? then 1 else 0 }

  lemma HeldIff(index: seq<Link>, job: string)
    ensures Held(index, job) == 1 <==> exists x :: x in index && x.job == job
    ensures Held(index, job) <= 1
  {
    FindIff(index, job);
    if i :| 0 <= i < |index| && index[i].job == job { assert index[i] in index; }
  }

  lemma RememberHolds(index: seq<Link>, capacity: nat, job: string, schedule: string, other: string)
    requires OnePerJob(index)
    ensures OnePerJob(SchedulerModel.Remember(index, capacity, job, schedule))
    ensures Held(SchedulerModel.Remember(index, capacity, job, schedule), other)
        <= Held(index, other) + (if job == other then 1 else 0)
  {
    PutRows(index, job, schedule);
    FittedRows(Put(index, job, schedule), capacity);
    HeldIff(SchedulerModel.Remember(index, capacity, job, schedule), other);
    HeldIff(index, other);
  }

  lemma RemoveHolds(index: seq<Link>, job: string, other: string)
    requires OnePerJob(index)
    ensures OnePerJob(Remove(index, job))
    ensures Held(Remove(index, job), other) == if job == other then 0 else Held(index, other)
  {
    RemoveRows(index, job);
    HeldIff(Remove(index, job), other);
    HeldIff(index, other);
  }

  // The index stays within its capacity, and a job is attributed no more often than it was
  // remembered: once, since every job has an id of its own.
  lemma {:induction false} AttributedOnce(ops: seq<Op>, capacity: nat, job: string)
    ensures |After(ops, capacity).index| <= capacity && OnePerJob(After(ops, capacity).index)
    ensures Given(After(ops, capacity).given, job) + Held(After(ops, capacity).index, job) <= Remembered(ops, job)
  {
    if |ops| != 0 {
      var init, op := ops[..|ops|-1], ops[|ops|-1];
      AttributedOnce(init, capacity, job);
      var h := After(init, capacity);
      match op
      case Remembers(j, s) => RememberHolds(h.index, capacity, j, s, job);
      case Takes(j) =>
        RemoveHolds(h.index, j, job);
        RemoveShorter(h.index, j);
        HeldIff(h.index, j);
      case Resets =>
    }
  }

  lemma {:induction false} RemoveShorter(index: seq<Link>, job: string)
    ensures |Remove(index, job)| <= |index|
  {
    if index != [] { RemoveShorter(index[1..], job); }
  }

  // A job no one has remembered is no schedule's.
  lemma StrangersUnattributed(ops: seq<Op>, capacity: nat, job: string)
    requires Remembered(ops, job) == 0
    ensures Find(After(ops, capacity).index, job).None?
  {
    AttributedOnce(ops, capacity, job);
  }

  function LastOf(links: seq<Link>, capacity: nat): seq<Link> {
    if |links| <= capacity then links else links[|links|-capacity..]
  }

  lemma LastOfSnoc(links: seq<Link>, x: Link, capacity: nat)
    ensures Fitted(LastOf(links, capacity) + [x], capacity) == LastOf(links + [x], capacity)
  {
  }

  lemma NewIsNotHeld(links: seq<Link>, n: nat, capacity: nat)
    requires OnePerJob(links) && n < |links|
    ensures OnePerJob(links[..n])
    ensures forall x :: x in LastOf(links[..n], capacity) ==> x.job != links[n].job
  {
    forall x | x in LastOf(links[..n], capacity) ensures x.job != links[n].job {
      assert x in links[..n];
      var k :| 0 <= k < n && links[k] == x;
    }
  }

  predicate RememberedInOrder(links: seq<Link>, ops: seq<Op>) {
    |ops| == |links| && forall i :: 0 <= i < |links| ==> ops[i] == Remembers(links[i].job, links[i].schedule)
  }

  // Of jobs that are new when they are remembered, and none of them taken, the index holds
  // the last ones it has room for, in the order they came.
  lemma {:induction false} LastOnesStay(links: seq<Link>, capacity: nat, ops: seq<Op>)
    requires OnePerJob(links) && RememberedInOrder(links, ops)
    ensures After(ops, capacity).index == LastOf(links, capacity)
  {
    hide Put, Fitted, OnePerJob, LastOf;
    if |links| == 0 {
      assert LastOf(links, capacity) == [] by { NoLinks(capacity, links); }
    } else {
      var n := |links| - 1;
      NewIsNotHeld(links, n, capacity);
      LastOnesStay(links[..n], capacity, ops[..n]);
      PutNew(LastOf(links[..n], capacity), links[n].job, links[n].schedule);
      LastOfSnoc(links[..n], links[n], capacity);
      assert links == links[..n] + [links[n]];
    }
  }

  lemma NoLinks(capacity: nat, links: seq<Link>)
    requires |links| == 0
    ensures LastOf(links, capacity) == []
  {
  }

  lemma {:induction false} PutNew(index: seq<Link>, job: string, schedule: string)
    requires forall x :: x in index ==> x.job != job
    ensures Put(index, job, schedule) == index + [Link(job, schedule)]
  {
    if index != [] {
      assert index[0] in index && index == [index[0]] + index[1..];
      PutNew(index[1..], job, schedule);
    }
  }

  lemma {:induction false} PutIsFound(index: seq<Link>, job: string, schedule: string)
    ensures Find(Put(index, job, schedule), job) == Some(schedule)
    ensures |Put(index, job, schedule)| == |index| + (if Find(index, job).Some? then 0 else 1)
  {
    if index != [] { PutIsFound(index[1..], job, schedule); }
  }

  lemma {:induction false} FindLast(index: seq<Link>, job: string, schedule: string)
    requires forall x :: x in index ==> x.job != job
    ensures Find(index + [Link(job, schedule)], job) == Some(schedule)
  {
    if index != [] {
      assert index[0] in index && (index + [Link(job, schedule)])[1..] == index[1..] + [Link(job, schedule)];
      FindLast(index[1..], job, schedule);
    }
  }

  // Remembering a job never evicts the job itself, unless there is no room for any.
  lemma RememberedIsFound(index: seq<Link>, capacity: nat, job: string, schedule: string)
    requires capacity > 0 && |index| <= capacity
    ensures Find(SchedulerModel.Remember(index, capacity, job, schedule), job) == Some(schedule)
  {
    PutIsFound(index, job, schedule);
    if Find(index, job).None? && |index| == capacity {
      FindIff(index, job);
      forall x | x in index ensures x.job != job {
        var i :| 0 <= i < |index| && index[i] == x;
      }
      PutNew(index, job, schedule);
      assert Fitted(Put(index, job, schedule), capacity) == index[1..] + [Link(job, schedule)];
      FindLast(index[1..], job, schedule);
    }
  }

  // A job that finishes is written down against the schedule that submitted it, and the
  // second report of it against none.
  lemma OutcomeReachesItsSchedule(s: State, k: nat, job: string, now: real, began: real, at: real)
    requires k < |s.schedules| && s.capacity > 0 && |s.index| <= s.capacity && OnePerJob(s.index)
    ensures var t := SubmitOne(s, k, Done(began, job), now);
      var u := Next(t, Completed(at, job, true));
      && u.stamps == s.stamps[s.schedules[k].id := began][s.schedules[k].id := at]
      && Next(u, Completed(at, job, true)) == u
  {
    var id := s.schedules[k].id;
    RememberedIsFound(s.index, s.capacity, job, id);
    var index := SchedulerModel.Remember(s.index, s.capacity, job, id);
    PutRows(s.index, job, id);
    FittedRows(Put(s.index, job, id), s.capacity);
    RemoveHolds(index, job, job);
  }
}
