/** The state store over the rows of one run: each method is one transaction, and does what the step of its call says. */
module GenerationStateStore {
  import opened Arithmetic
  import opened Prelude
  import opened GenerationState

  class RunRow {
    var status: Status
    var commit: Option<string>

    constructor (commit: Option<string>)
      ensures status == Queued && this.commit == commit
    {
      status, this.commit := Queued, commit;
    }
  }

  class JobRow {
    var status: Status
    var attempts: nat
    var maxAttempts: nat
    var cancelRequested: bool
    var category: Option<Category>
    var retryable: bool
    var finishedAt: Option<int>

    constructor (maxAttempts: nat)
      ensures status == Queued && attempts == 0 && this.maxAttempts == maxAttempts && !cancelRequested
      ensures category == None && !retryable && finishedAt == None
    {
      status, attempts, this.maxAttempts, cancelRequested := Queued, 0, maxAttempts, false;
      category, retryable, finishedAt := None, false, None;
    }
  }

  class StateStore {
    const run: RunRow
    const job: JobRow
    var stages: map<string, StageStatus>

    constructor (maxAttempts: nat, commit: Option<string>)
      ensures fresh(run) && fresh(job) && View() == NewRun(maxAttempts, commit)
    {
      run := new RunRow(commit);
      job := new JobRow(maxAttempts);
      stages := map[];
    }

    ghost function View(): Rows
      reads this, run, job
    {
      Rows(run.status, job.status, job.attempts, job.maxAttempts, job.cancelRequested, job.category, job.retryable, job.finishedAt,
           run.commit, stages)
    }

    /** The claim of an attempt. Whether the batch of the run has capacity is up to other runs. */
    method Claim(now: int, capacity: bool) returns (answer: Answer)
      modifies run, job
      ensures (answer, View()) == Step(old(View()), Call.Claim(now, capacity))
    {
      if run.status == Succeeded && job.status == Succeeded {
        return AlreadySucceeded;
      }
      if run.status == Cancelled && job.status == Cancelled {
        return AlreadyCancelled;
      }
      if run.status == Running && job.status == Running {
        return InProgress;
      }
      if run.status != Queued || job.status != Queued {
        return RaisedError;
      }
      if job.cancelRequested {
        return RaisedCancelled;
      }
      if job.category == Some(Transient) && job.retryable && job.finishedAt.Some? {
        var delay := RetryDelay(job.attempts);
        if delay.None? {
          return RaisedError;
        }
        var remaining := job.finishedAt.value + delay.value * SECOND - now;
        if remaining > 0 {
          return Deferred(Max(1, (remaining + SECOND - 1) / SECOND));
        }
      }
      if job.attempts >= job.maxAttempts {
        return RaisedError;
      }
      if run.commit.None? || !IsCommit(run.commit.value) {
        return RaisedError;
      }
      if !capacity {
        return RaisedError;
      }
      run.status := Running;
      job.status, job.attempts := Running, job.attempts + 1;
      job.finishedAt, job.category, job.retryable := None, None, false;
      answer := Started;
    }

    method RequestCancel(now: int) returns (answer: Answer)
      modifies run, job
      ensures (answer, View()) == Step(old(View()), Call.RequestCancel(now))
    {
      if run.status == Succeeded || run.status == Failed || run.status == Cancelled {
        return Declined;
      }
      if job.status != run.status {
        return RaisedError;
      }
      if job.cancelRequested {
        return Declined;
      }
      job.cancelRequested := true;
      if run.status == Queued {
        Close(now);
      }
      answer := Done;
    }

    /** `_set_cancelled`. */
    method Close(now: int)
      modifies run, job
      ensures View() == SetCancelled(old(View()), now).(cancelRequested := old(job.cancelRequested))
    {
      run.status := Cancelled;
      job.status, job.category, job.retryable, job.finishedAt := Cancelled, Some(Cancellation), false, Some(now);
    }

    method CheckCancelled() returns (answer: Answer)
      ensures (answer, View()) == Step(View(), Call.CheckCancelled)
    {
      answer := if job.cancelRequested then RaisedCancelled else Done;
    }

    method StartStage(stage: string) returns (answer: Answer)
      modifies this`stages
      ensures (answer, View()) == Step(old(View()), Call.StartStage(stage))
    {
      answer := Insert(stage, StageRunning);
    }

    method SkipStage(stage: string) returns (answer: Answer)
      modifies this`stages
      ensures (answer, View()) == Step(old(View()), Call.SkipStage(stage))
    {
      answer := Insert(stage, StageSkipped);
    }

    /** What starting and skipping have in common. */
    method Insert(stage: string, status: StageStatus) returns (answer: Answer)
      modifies this`stages
      ensures (answer, View()) == Inserting(old(View()), stage, status)
    {
      if run.status != Running {
        return RaisedError;
      }
      if job.cancelRequested {
        return RaisedCancelled;
      }
      if stage in stages {
        return RaisedError;
      }
      stages := stages[stage := status];
      answer := Done;
    }

    method CompleteStage(stage: string) returns (answer: Answer)
      modifies this`stages
      ensures (answer, View()) == Step(old(View()), Call.CompleteStage(stage))
    {
      if run.status != Running {
        return RaisedError;
      }
      if job.cancelRequested {
        return RaisedCancelled;
      }
      if stage !in stages || stages[stage] != StageRunning {
        return RaisedError;
      }
      stages := stages[stage := StageSucceeded];
      answer := Done;
    }

    method FailStage(stage: string) returns (answer: Answer)
      modifies this`stages
      ensures (answer, View()) == Step(old(View()), Call.FailStage(stage))
    {
      if run.status != Running {
        return Done;
      }
      if stage !in stages || stages[stage] != StageRunning {
        return Done;
      }
      if job.cancelRequested {
        return RaisedCancelled;
      }
      stages := stages[stage := StageFailed];
      answer := Done;
    }

    method CancelStage(stage: string) returns (answer: Answer)
      modifies this`stages
      ensures (answer, View()) == Step(old(View()), Call.CancelStage(stage))
    {
      if run.status != Running {
        return Done;
      }
      if stage !in stages || (stages[stage] != StageRunning && stages[stage] != StageFailed) {
        return Done;
      }
      stages := stages[stage := StageCancelled];
      answer := Done;
    }

    method CompleteRun(expected: seq<string>, now: int) returns (answer: Answer)
      modifies run, job
      ensures (answer, View()) == Step(old(View()), Call.CompleteRun(expected, now))
    {
      if run.status != Running {
        return RaisedError;
      }
      if job.cancelRequested {
        return RaisedCancelled;
      }
      if |stages| != |expected| || stages.Keys != (set s | s in expected)
         || exists s | s in stages :: stages[s] != StageSucceeded && stages[s] != StageSkipped {
        return RaisedError;
      }
      if run.commit.None? {
        return RaisedError;
      }
      if job.status != Running {
        return RaisedError;
      }
      run.status := Succeeded;
      job.status, job.category, job.retryable, job.finishedAt := Succeeded, None, false, Some(now);
      answer := Done;
    }

    method FailRun(error: Category, now: int) returns (answer: Answer)
      modifies run, job
      ensures (answer, View()) == Step(old(View()), Call.FailRun(error, now))
    {
      if run.status != Running || job.status != Running {
        return RaisedError;
      }
      if job.cancelRequested {
        return RaisedCancelled;
      }
      var hasStageRows := stages != map[];
      var retryable := error == Transient && !hasStageRows && job.attempts < job.maxAttempts;
      answer := Done;
      if retryable {
        var delay := RetryDelay(job.attempts);
        if delay.None? {
          return RaisedError;
        }
        answer := RetryIn(delay.value);
      }
      run.status := if retryable then Queued else Failed;
      job.status, job.category, job.retryable, job.finishedAt := run.status, Some(error), retryable, Some(now);
    }

    method CancelRun(now: int) returns (answer: Answer)
      modifies run, job
      ensures (answer, View()) == Step(old(View()), Call.CancelRun(now))
    {
      if run.status == job.status == Cancelled {
        return Done;
      }
      if run.status != Running || job.status != Running {
        return RaisedError;
      }
      job.cancelRequested := true;
      Close(now);
      answer := Done;
    }
  }
}
