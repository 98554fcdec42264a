/**
 The runtime object itself: the fields the event loop, the workers and the
 callbacks update, and the section of code each of them runs.  Every section is
 proved to be one step of the machine in RuntimeModel, whose runs are the subject
 of the theorems there.
 */
module BackendRuntime {
  import opened RuntimeModel

  datatype StartResult = AlreadyRunning | Rebound | OwnedByAnotherLoop

  class Runtime {
    const maxWorkers: nat
    const maxQueued: nat
    var gen: nat
    var capacity: int                       // the value of the semaphore
    var calls: seq<Op>                      // the local state of every call of `run`
    var operations: map<string, Bucket>
    var queued: int
    var running: int
    var completed: int
    var failed: int
    var saturated: int
    var cancelled: int
    var deadlines: int

    ghost function View(): State
      reads this
    {
      State(maxWorkers, maxQueued, gen, capacity, calls, operations, queued, running, completed, failed,
            saturated, cancelled, deadlines)
    }

    // The events so far.  A valid runtime is in the state the machine reaches on
    // them, so everything proved of all runs holds of it.
    ghost var trace: seq<Event>

    ghost predicate Valid()
      reads this
    {
      View() == Run(Init(maxWorkers, maxQueued), trace)
    }

    constructor (maxWorkers: nat, maxQueued: nat)
      ensures Valid() && trace == [] && this.maxWorkers == maxWorkers && this.maxQueued == maxQueued
    {
      this.maxWorkers, this.maxQueued := maxWorkers, maxQueued;
      gen, capacity, calls, operations := 0, maxWorkers + maxQueued, [], map[];
      queued, running, completed, failed := 0, 0, 0, 0;
      saturated, cancelled, deadlines := 0, 0, 0;
      trace := [];
    }

    // `start` once an executor exists: the same loop, a rebind, or a refusal.
    method Start(sameLoop: bool, previousClosed: bool) returns (r: StartResult)
      requires Valid()
      requires previousClosed ==> LoopGone(calls)
      modifies this
      ensures Valid()
      ensures r == (if sameLoop then AlreadyRunning
                    else if previousClosed && old(queued) == 0 && old(running) == 0
                    then Rebound else OwnedByAnotherLoop)
      ensures trace == if r.Rebound? then old(trace) + [Rebind] else old(trace)
    {
      if sameLoop {
        return AlreadyRunning;
      }
      var idle := queued == 0 && running == 0;
      if !previousClosed || !idle {
        return OwnedByAnotherLoop;
      }
      RunExtend(Init(maxWorkers, maxQueued), trace, Rebind);
      trace := trace + [Rebind];
      gen, capacity := gen + 1, maxWorkers + maxQueued;
      return Rebound;
    }

    method Arrive(name: string) returns (i: nat)
      requires Valid()
      modifies this`calls, this`trace
      ensures Valid() && i == old(|calls|)
      ensures trace == old(trace) + [RuntimeModel.Arrive(name)]
    {
      hide Run;
      RunExtend(Init(maxWorkers, maxQueued), trace, RuntimeModel.Arrive(name));
      trace := trace + [RuntimeModel.Arrive(name)];
      i := |calls|;
      calls := calls + [Op(name, "", gen, Waiting, false, false, 0, Nothing)];
    }

    // `_operation`: the bucket of a label, made on first use while there is room.
    method Operation(name: string) returns (b: string)
      modifies this`operations
      ensures b == BucketOf(old(operations).Keys, name)
      ensures operations == Touch(old(operations), b)
    {
      if name in operations {
        return name;
      }
      assert |operations| == |operations.Keys|;
      b := if |operations| < BUCKET_LIMIT then name else OVERFLOW_LABEL;
      if b !in operations {
        operations := operations[b := Bucket(0, 0, 0)];
      }
    }

    // `_admit`: the permit, or a refusal that is counted by its cause.
    method Admit(i: nat, offered: bool, expired: bool) returns (admitted: bool)
      requires Valid() && i < |calls| && calls[i].stage == Waiting && calls[i].gen == gen
      modifies this
      ensures Valid()
      ensures admitted <==> offered && old(capacity) > 0
      ensures trace == old(trace) + [On(i, if admitted then Acquire else Refuse(expired))]
    {
      hide Run;
      admitted := offered && capacity > 0;
      RunExtend(Init(maxWorkers, maxQueued), trace, On(i, if admitted then Acquire else Refuse(expired)));
      trace := trace + [On(i, if admitted then Acquire else Refuse(expired))];
      if admitted {
        capacity := capacity - 1;
        calls := calls[i := calls[i].(stage := Admitted)];
      } else {
        if expired { deadlines := deadlines + 1; } else { saturated := saturated + 1; }
        calls := calls[i := calls[i].(stage := Refused, told := if expired then Expired else Saturated)];
      }
    }

    // The caller was cancelled inside the admission: nothing is held or counted.
    method AdmissionCancelled(i: nat)
      requires Valid() && i < |calls| && calls[i].stage == Waiting
      modifies this`calls, this`trace
      ensures Valid() && trace == old(trace) + [On(i, AbandonAdmission)]
    {
      hide Run;
      RunExtend(Init(maxWorkers, maxQueued), trace, On(i, AbandonAdmission));
      trace := trace + [On(i, AbandonAdmission)];
      calls := calls[i := calls[i].(stage := Refused, told := Withdrawn)];
    }

    // The second look at the budget, in `run`, before anything is submitted.
    method ExpireAfterAdmission(i: nat)
      requires Valid() && i < |calls| && calls[i].stage == Admitted
      modifies this
      ensures Valid() && trace == old(trace) + [On(i, Expire)]
    {
      hide Run;
      RunExtend(Init(maxWorkers, maxQueued), trace, On(i, Expire));
      trace := trace + [On(i, Expire)];
      capacity := capacity + 1;
      deadlines := deadlines + 1;
      calls := calls[i := calls[i].(stage := Returned(NeverSubmitted), releases := calls[i].releases + 1,
                                    told := Expired)];
    }

    // `_submit`, up to the hand-over.
    method CountSubmission(i: nat)
      requires Valid() && i < |calls| && calls[i].stage == Admitted
      modifies this
      ensures Valid() && trace == old(trace) + [On(i, Submit)]
    {
      hide Run;
      RunExtend(Init(maxWorkers, maxQueued), trace, On(i, Submit));
      trace := trace + [On(i, Submit)];
      queued := queued + 1;
      var b := Operation(calls[i].name);
      operations := operations[b := operations[b].(submitted := operations[b].submitted + 1)];
      calls := calls[i := calls[i].(stage := Counted, bucket := b)];
    }

    // The hand-over: the pool takes the work, or raises and everything is undone.
    method HandOver(i: nat, accepted: bool)
      requires Valid() && i < |calls| && calls[i].stage == Counted
      modifies this
      ensures Valid() && trace == old(trace) + [On(i, if accepted then PoolAccept else PoolRefuse)]
    {
      hide Run;
      RunExtend(Init(maxWorkers, maxQueued), trace, On(i, if accepted then PoolAccept else PoolRefuse));
      trace := trace + [On(i, if accepted then PoolAccept else PoolRefuse)];
      if accepted {
        calls := calls[i := calls[i].(stage := Pending, watched := true)];
      } else {
        queued := queued - 1;
        capacity := capacity + 1;
        calls := calls[i := calls[i].(stage := Returned(NeverStarted), releases := calls[i].releases + 1,
                                      told := Answered)];
      }
    }

    method ClaimByWorker(i: nat)
      requires Valid() && i < |calls| && calls[i].stage == Pending && Tally(calls, OnWorker) < maxWorkers
      modifies this`calls, this`trace
      ensures Valid() && trace == old(trace) + [On(i, Claim)]
    {
      hide Run;
      RunExtend(Init(maxWorkers, maxQueued), trace, On(i, Claim));
      trace := trace + [On(i, Claim)];
      calls := calls[i := calls[i].(stage := Claimed)];
    }

    // `invoke`, first section.
    method InvokeBegin(i: nat)
      requires Valid() && i < |calls| && calls[i].stage == Claimed
      modifies this
      ensures Valid() && trace == old(trace) + [On(i, Begin)]
    {
      hide Run;
      RunExtend(Init(maxWorkers, maxQueued), trace, On(i, Begin));
      trace := trace + [On(i, Begin)];
      queued := queued - 1;
      running := running + 1;
      var _ := Operation(calls[i].name);
      calls := calls[i := calls[i].(stage := Running, started := true)];
    }

    // `invoke`, the handler of a raising function.
    method InvokeRaised(i: nat)
      requires Valid() && i < |calls| && calls[i].stage == Running
      modifies this
      ensures Valid() && trace == old(trace) + [On(i, Raise)]
    {
      hide Run;
      RunExtend(Init(maxWorkers, maxQueued), trace, On(i, Raise));
      trace := trace + [On(i, Raise)];
      failed := failed + 1;
      var b := Operation(calls[i].name);
      operations := operations[b := operations[b].(failed := operations[b].failed + 1)];
      calls := calls[i := calls[i].(stage := Raised)];
    }

    // `invoke`, the section that always runs.
    method InvokeFinally(i: nat)
      requires Valid() && i < |calls| && (calls[i].stage == Running || calls[i].stage == Raised)
      modifies this
      ensures Valid() && trace == old(trace) + [On(i, Unwind)]
    {
      hide Run;
      RunExtend(Init(maxWorkers, maxQueued), trace, On(i, Unwind));
      trace := trace + [On(i, Unwind)];
      running := running - 1;
      var _ := Operation(calls[i].name);
      calls := calls[i := calls[i].(stage := if calls[i].stage == Raised then Finished(Failed) else Unwound)];
    }

    // `invoke`, after a function that returned.
    method InvokeCompleted(i: nat)
      requires Valid() && i < |calls| && calls[i].stage == Unwound
      modifies this
      ensures Valid() && trace == old(trace) + [On(i, Complete)]
    {
      hide Run;
      RunExtend(Init(maxWorkers, maxQueued), trace, On(i, Complete));
      trace := trace + [On(i, Complete)];
      completed := completed + 1;
      var b := Operation(calls[i].name);
      operations := operations[b := operations[b].(completed := operations[b].completed + 1)];
      calls := calls[i := calls[i].(stage := Finished(Succeeded))];
    }

    // `_wait_for`, when the caller's time or patience ends: work that no worker
    // has claimed is cancelled, work that has begun is left to finish.
    method StopWaiting(i: nat, timedOut: bool)
      requires Valid() && i < |calls| && calls[i].watched
      modifies this
      ensures Valid() && trace == old(trace) + [On(i, GiveUp(timedOut))]
      ensures |calls| == |old(calls)| && !calls[i].watched
      ensures old(calls[i].stage) == Pending ==> calls[i].stage == Finished(NeverStarted) && !calls[i].started
      ensures old(calls[i].stage) != Pending ==>
                calls[i].stage == old(calls[i].stage) && calls[i].started == old(calls[i].started)
      ensures forall j :: 0 <= j < |calls| && j != i ==> calls[j] == old(calls)[j]
      ensures if timedOut then deadlines == old(deadlines) + 1 && cancelled == old(cancelled)
              else cancelled == old(cancelled) + 1 && deadlines == old(deadlines)
      ensures forall k :: 0 <= k < |calls| && calls[k].stage == Pending ==> calls[k].watched
    {
      hide Run;
      forall k | 0 <= k < |calls| && calls[k].stage == Pending ensures calls[k].watched && !calls[k].started {
        PendingIsWatched(maxWorkers, maxQueued, trace, k);
      }
      RunExtend(Init(maxWorkers, maxQueued), trace, On(i, GiveUp(timedOut)));
      trace := trace + [On(i, GiveUp(timedOut))];
      if calls[i].stage == Pending {
        calls := calls[i := calls[i].(stage := Finished(NeverStarted))];
      }
      calls := calls[i := calls[i].(watched := false, told := if timedOut then Expired else Cancelled)];
      if timedOut { deadlines := deadlines + 1; } else { cancelled := cancelled + 1; }
    }

    // `_wait_for`, when the future is resolved first.
    method Answer(i: nat)
      requires Valid() && i < |calls| && calls[i].watched
      requires calls[i].stage.Finished? || calls[i].stage.Returning? || calls[i].stage.Returned?
      modifies this`calls, this`trace
      ensures Valid() && trace == old(trace) + [On(i, Deliver)]
    {
      hide Run;
      RunExtend(Init(maxWorkers, maxQueued), trace, On(i, Deliver));
      trace := trace + [On(i, Deliver)];
      calls := calls[i := calls[i].(watched := false, told := Answered)];
    }

    // The done callback, on whichever thread resolved the future.
    method DoneCallback(i: nat)
      requires Valid() && i < |calls| && calls[i].stage.Finished?
      modifies this
      ensures Valid() && trace == old(trace) + [On(i, Callback)]
    {
      hide Run;
      RunExtend(Init(maxWorkers, maxQueued), trace, On(i, Callback));
      trace := trace + [On(i, Callback)];
      if !calls[i].started {
        queued := queued - 1;
      }
      calls := calls[i := calls[i].(stage := Returning(calls[i].stage.fate))];
    }

    // The release the callback left with the loop that owned the semaphore.
    method ReleaseOnLoop(i: nat)
      requires Valid() && i < |calls| && calls[i].stage.Returning?
      modifies this
      ensures Valid() && trace == old(trace) + [On(i, Release)]
    {
      hide Run;
      RunExtend(Init(maxWorkers, maxQueued), trace, On(i, Release));
      trace := trace + [On(i, Release)];
      if calls[i].gen == gen {
        capacity := capacity + 1;
      }
      calls := calls[i := calls[i].(stage := Returned(calls[i].stage.fate), releases := calls[i].releases + 1)];
    }

    // `status`: what an operator reads is within the configured bounds.
    method Status() returns (depth: int, inFunction: int, free: int)
      requires Valid()
      ensures depth == queued && inFunction == running && free == capacity
      ensures 0 <= depth && 0 <= inFunction <= maxWorkers && 0 <= free
      ensures depth + inFunction + free <= maxWorkers + maxQueued
      ensures |operations| <= 65
    {
      PermitsConserved(maxWorkers, maxQueued, trace);
      LabelBooksBalance(maxWorkers, maxQueued, trace, "");
      depth, inFunction, free := queued, running, capacity;
    }
  }
}
