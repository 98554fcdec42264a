/**
 The scheduler object: its schedules, the store of their last runs and the index it
 shares with the completion hook.
 */
module DataScheduler {
  import opened SchedulerModel
  import JobIndex

  class Scheduler {
    const schedules: seq<Schedule>
    const index: JobIndex.ScheduleJobIndex
    var stamps: map<string, real>

    ghost var history: seq<Submission>
    ghost var trace: seq<Event>

    ghost function View(): State
      reads this, index
    {
      State(schedules, index.capacity, stamps, index.byJob, history)
    }

    ghost predicate Valid()
      reads this, index
    {
      View() == Run(Init(schedules, index.capacity), trace)
    }

    constructor (schedules: seq<Schedule>, index: JobIndex.ScheduleJobIndex)
      requires index.byJob == []
      ensures Valid() && this.schedules == schedules && this.index == index && trace == []
    {
      this.schedules := schedules;
      this.index := index;
      stamps, history, trace := map[], [], [];
    }

    ghost method Record(e: Event)
      requires Valid() && Enabled(View(), e)
      modifies this`trace
      ensures trace == old(trace) + [e]
      ensures Run(Init(schedules, index.capacity), trace) == Next(old(View()), e)
    {
      assert (trace + [e])[..|trace|] == trace;
      trace := trace + [e];
    }

    method DueNow(now: real) returns (due: seq<nat>)
      ensures due == Due(schedules, stamps, now, |schedules|)
    {
      due := [];
      for k := 0 to |schedules|
        invariant due == Due(schedules, stamps, now, k)
      {
        var s := schedules[k];
        if !s.valid {
          continue;
        }
        var at := NextDue(s, StampOf(stamps, s.id), now);
        if at.Some? && at.value <= now {
          due := due + [k];
        }
      }
    }

    // The job, if the queue took it and its run could be written down; the stamp is the
    // submission's own reading of the clock.
    method Submit(k: nat, outcome: Outcome, now: real) returns (job: Option<string>)
      requires k < |schedules|
      modifies this`stamps, this`history, index`byJob
      ensures View() == SubmitOne(old(View()), k, outcome, now)
      ensures job == if outcome.Done? then Some(outcome.job) else None
    {
      if outcome.SubmitFails? {
        return None;
      }
      history := history + [Submission(k, now, outcome.at, outcome.job)];
      if outcome.RecordFails? {
        return None;
      }
      stamps := stamps[schedules[k].id := outcome.at];
      index.Remember(outcome.job, schedules[k].id);
      job := Some(outcome.job);
    }

    // Every due schedule, each on its own.
    method Tick(now: real, outcomes: seq<Outcome>) returns (submitted: seq<string>)
      requires Valid() && |outcomes| == |schedules|
      modifies this, index`byJob
      ensures Valid() && trace == old(trace) + [Event.Tick(now, outcomes)]
      ensures submitted == Jobs(Due(schedules, old(stamps), now, |schedules|), outcomes)
    {
      hide Run, Due, SubmitOne;
      Record(Event.Tick(now, outcomes));
      var due := DueNow(now);
      submitted := [];
      for i := 0 to |due|
        invariant View() == SubmitAll(old(View()), due[..i], outcomes, now)
        invariant submitted == Jobs(due[..i], outcomes)
        invariant trace == old(trace) + [Event.Tick(now, outcomes)]
      {
        assert due[..i+1][..i] == due[..i];
        var job := Submit(due[i], outcomes[due[i]], now);
        if job.Some? {
          submitted := submitted + [job.value];
        }
      }
      assert due[..|due|] == due;
    }

    // The completion hook: a job that is no schedule's changes nothing.
    method RecordOutcome(at: real, job: string, recorded: bool)
      requires Valid()
      modifies this, index`byJob
      ensures Valid() && trace == old(trace) + [Completed(at, job, recorded)]
      ensures Find(old(index.byJob), job).None? ==> stamps == old(stamps)
    {
      Record(Completed(at, job, recorded));
      JobIndexUnchanged(index.byJob, job);
      var schedule := index.Take(job);
      if schedule.None? {
        return;
      }
      if recorded {
        stamps := stamps[schedule.value := at];
      }
    }
  }

  lemma {:induction false} JobIndexUnchanged(links: seq<Link>, job: string)
    ensures Find(links, job).None? ==> Remove(links, job) == links
  {
    if links != [] {
      JobIndexUnchanged(links[1..], job);
      assert links == [links[0]] + links[1..];
    }
  }

  // The jobs that were submitted and recorded.
  function Jobs(due: seq<nat>, outcomes: seq<Outcome>): seq<string>
    requires Below(due, |outcomes|)
  {
    if |due| == 0 then []
    else
      var rest, k := Jobs(due[..|due|-1], outcomes), due[|due|-1];
      if outcomes[k].Done? then rest + [outcomes[k].job] else rest
  }

  // A tick answers with the job of each due entry that was taken and recorded, in the order of
  // the entries, and with no other.
  lemma {:induction false} JobsJoin(a: seq<nat>, b: seq<nat>, outcomes: seq<Outcome>)
    requires Below(a, |outcomes|) && Below(b, |outcomes|)
    ensures Jobs(a + b, outcomes) == Jobs(a, outcomes) + Jobs(b, outcomes)
    ensures |b| == 1 ==> Jobs(b, outcomes) == if outcomes[b[0]].Done? then [outcomes[b[0]].job] else []
  {
    if |b| == 0 {
      assert a + b == a;
    } else {
      var init := b[..|b|-1];
      JobsJoin(a, init, outcomes);
      assert (a + b)[..|a + b|-1] == a + init;
    }
  }

  lemma {:induction false} JobsAre(due: seq<nat>, outcomes: seq<Outcome>, job: string)
    requires Below(due, |outcomes|)
    ensures job in Jobs(due, outcomes) <==>
      exists i :: 0 <= i < |due| && outcomes[due[i]].Done? && outcomes[due[i]].job == job
  {
    if |due| != 0 {
      var n := |due| - 1;
      JobsAre(due[..n], outcomes, job);
      if i :| 0 <= i < n && outcomes[due[i]].Done? && outcomes[due[i]].job == job { assert due[..n][i] == due[i]; }
      if i :| 0 <= i < n && outcomes[due[..n][i]].Done? && outcomes[due[..n][i]].job == job {
        assert due[i] == due[..n][i];
      }
    }
  }
}
