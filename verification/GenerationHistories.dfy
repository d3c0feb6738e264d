/**
 * What any sequence of calls over the rows of a generation run keeps, whoever makes them and whenever: attempts,
 * stages, endings, cancellation and the wait before a retry.
 */
module GenerationHistories {
  import opened Arithmetic
  import opened Prelude
  import opened GenerationState
  import Sorting

  /** The calls made for one run since it was queued. */
  datatype History = History(maxAttempts: nat, commit: Option<string>, calls: seq<Call>) {
    function New(): Rows { NewRun(maxAttempts, commit) }
  }

  /** The rows before call `i` of a new run, or after the last one. */
  function Before(h: History, i: nat): Rows
    requires i <= |h.calls|
  {
    After(h.New(), h.calls[..i])
  }

  function Answered(h: History, i: nat): Answer
    requires i < |h.calls|
  {
    AnswerTo(h.New(), h.calls, i)
  }

  /** Nothing is taken back: rows stay, go on as they may, and an ended run stays as it is. */
  ghost predicate Extends(a: Rows, b: Rows) {
    && a.stages.Keys <= b.stages.Keys && (forall s | s in a.stages :: Onward(a.stages[s], b.stages[s]))
    && a.attempts <= b.attempts && (a.cancelRequested ==> b.cancelRequested) && (a.run.Terminal() ==> b == a)
  }

  lemma CallMoves(h: History, i: nat)
    requires i < |h.calls|
    ensures var r, r' := Before(h, i), Before(h, i + 1);
      && Consistent(r) && Consistent(r') && (Answered(h, i), r') == Step(r, h.calls[i])
      && Moves(r, h.calls[i], Answered(h, i), r') && Extends(r, r')
  {
    hide Consistent, Moves, Step, Extends;
    NewRunIsConsistent(h);
    HistoryKeeps(h.New(), h.calls[..i]);
    StepKeeps(After(h.New(), h.calls[..i]), h.calls[i]);
    AfterNext(h.New(), h.calls, i);
    MovesExtend(After(h.New(), h.calls[..i]), h.calls[i]);
  }

  lemma NewRunIsConsistent(h: History)
    ensures Consistent(h.New())
  {
  }

  lemma MovesExtend(r: Rows, c: Call)
    requires var (answer, r') := Step(r, c); Moves(r, c, answer, r')
    ensures Extends(r, Step(r, c).1)
  {
    hide Step;
  }

  lemma {:induction false} LaterExtends(h: History, i: nat, j: nat)
    requires i <= j <= |h.calls|
    ensures Extends(Before(h, i), Before(h, j))
    decreases j
  {
    hide Before, Step;
    if i < j {
      LaterExtends(h, i, j - 1);
      CallMoves(h, j - 1);
    }
  }

  // ----- Stages -----

  /** No stage is started or skipped twice, by whichever attempts. */
  lemma StagesStartOnce(h: History, i: nat, j: nat, stage: string)
    requires i < j < |h.calls| && Inserts(h.calls[i], stage) && Inserts(h.calls[j], stage)
    requires Answered(h, i) == Done
    ensures Answered(h, j) != Done
  {
    hide Before, Step;
    CallMoves(h, i);
    LaterExtends(h, i + 1, j);
    CallMoves(h, j);
  }

  /** The call ends the stage, one way or another. */
  predicate Ends(r: Rows, stage: string, r': Rows) {
    && stage in r'.stages && r'.stages[stage] != StageRunning
    && (stage !in r.stages || r.stages[stage] != r'.stages[stage])
  }

  /** A stage that has ended ends again if and only if it has failed and is cancelled while the run is not over. */
  lemma StagesEndAgainExactlyWhen(h: History, i: nat, j: nat, stage: string)
    requires i < j < |h.calls|
    requires Ends(Before(h, i), stage, Before(h, i + 1))
    ensures var r := Before(h, j);
      && stage in r.stages
      && (Ends(r, stage, Before(h, j + 1)) <==>
          h.calls[j] == CancelStage(stage) && r.run == Running && r.stages[stage] == StageFailed)
  {
    hide Before, RetryDelay, Due, IsCommit, Consistent, Moves;
    LaterExtends(h, i + 1, j);
    CallMoves(h, j);
  }

  /** Nothing is in the way of work on a run. */
  predicate Open(r: Rows) { r.run == Running && !r.cancelRequested }

  /** A call for a stage is done exactly when the stage is where it has to be, and then leaves it where it should. */
  lemma StageCallsTakeEffect(r: Rows, c: Call)
    requires c.StartStage? || c.SkipStage? || c.CompleteStage? || c.FailStage? || c.CancelStage?
    ensures var (answer, r') := Step(r, c);
            var status := if c.stage in r.stages then Some(r.stages[c.stage]) else None;
      && r'.(stages := map[]) == r.(stages := map[]) && r'.stages - {c.stage} == r.stages - {c.stage}
      && (c.StartStage? ==> (answer == Done <==> Open(r) && status == None))
      && (c.SkipStage? ==> (answer == Done <==> Open(r) && status == None))
      && (c.CompleteStage? ==> (answer == Done <==> Open(r) && status == Some(StageRunning)))
      && (c.FailStage? || c.CancelStage? ==>
            (answer != Done <==> c.FailStage? && r.run == Running && status == Some(StageRunning) && r.cancelRequested))
      && (answer == RaisedCancelled <==> answer != Done && r.run == Running && r.cancelRequested)
      && (answer == RaisedError <==> answer != Done && answer != RaisedCancelled)
      && (c.StartStage? && answer == Done ==> r'.stages == r.stages[c.stage := StageRunning])
      && (c.SkipStage? && answer == Done ==> r'.stages == r.stages[c.stage := StageSkipped])
      && (c.CompleteStage? && answer == Done ==> r'.stages == r.stages[c.stage := StageSucceeded])
      && (c.FailStage? && Open(r) && status == Some(StageRunning) ==> r'.stages == r.stages[c.stage := StageFailed])
      && (c.CancelStage? && r.run == Running && (status == Some(StageRunning) || status == Some(StageFailed)) ==>
            r'.stages == r.stages[c.stage := StageCancelled])
      && (r' != r ==> answer == Done)
  {
  }

  // ----- Attempts -----

  /** How many claims have been granted. */
  function Claims(h: History, i: nat): nat
    requires i <= |h.calls|
    decreases i
  {
    if i == 0 then 0
    else Claims(h, i - 1) + (if Answered(h, i - 1) == Started then 1 else 0)
  }

  /** There are at most `max_attempts` attempts. */
  lemma {:induction false} ClaimsAreBounded(h: History, i: nat)
    requires i <= |h.calls|
    ensures Claims(h, i) == Before(h, i).attempts <= h.maxAttempts
    ensures Before(h, i).maxAttempts == h.maxAttempts
    decreases i
  {
    hide Step;
    if i > 0 {
      hide Before, Step;
      ClaimsAreBounded(h, i - 1);
      CallMoves(h, i - 1);
    }
  }

  /** A granted claim finds nothing of an earlier attempt: no stage has been started or skipped before. */
  lemma RetriesStartFresh(h: History, i: nat, j: nat)
    requires i < j < |h.calls| && Answered(h, j) == Started
    ensures Before(h, j).stages == map[]
    ensures (h.calls[i].StartStage? || h.calls[i].SkipStage?) ==> Answered(h, i) != Done
  {
    hide Before, Step;
    CallMoves(h, i);
    LaterExtends(h, i + 1, j);
    CallMoves(h, j);
    if h.calls[i].StartStage? || h.calls[i].SkipStage? {
      assert Inserts(h.calls[i], h.calls[i].stage);
    }
  }

  /** A run is queued again only by a failure that is answered with a delay. */
  lemma {:induction false} RequeuedByRetry(h: History, i: nat, j: nat)
    requires i <= j <= |h.calls|
    requires Before(h, i).run != Queued && Before(h, j).run == Queued
    ensures exists k | i <= k < j :: h.calls[k].FailRun? && Answered(h, k).RetryIn?
    decreases j
  {
    hide Before, Step, Consistent, Extends;
    if i < j {
      CallMoves(h, j - 1);
      if Before(h, j - 1).run == Queued {
        RequeuedByRetry(h, i, j - 1);
      } else {
        assert h.calls[j - 1].FailRun? && Answered(h, j - 1).RetryIn?;
      }
    }
  }

  /** Attempts do not overlap: between two granted claims the first attempt has been given up for a retry. */
  lemma AttemptsDoNotOverlap(h: History, i: nat, j: nat)
    requires i < j < |h.calls|
    requires Answered(h, i) == Started && Answered(h, j) == Started
    ensures exists k | i < k < j :: h.calls[k].FailRun? && Answered(h, k).RetryIn?
  {
    hide Before, Step;
    CallMoves(h, i);
    CallMoves(h, j);
    RequeuedByRetry(h, i + 1, j);
  }

  /**
   * An attempt that is abandoned without closing its run blocks the run for good: claims, checks and requests, however
   * many, leave it running, and every claim is told that it is in progress.
   */
  lemma {:induction false} AbandonedRunStaysRunning(h: History, i: nat, j: nat)
    requires i <= j <= |h.calls| && Before(h, i).run == Running
    requires forall k | i <= k < j :: h.calls[k].Claim? || h.calls[k].RequestCancel? || h.calls[k].CheckCancelled?
    ensures Before(h, j).run == Running && Before(h, j).stages == Before(h, i).stages
    ensures i < j && h.calls[j - 1].Claim? ==> Answered(h, j - 1) == InProgress
    decreases j
  {
    hide Before, Due, RetryDelay, IsCommit, Moves, Extends;
    if i < j {
      AbandonedRunStaysRunning(h, i, j - 1);
      CallMoves(h, j - 1);
    }
  }

  /**
   * An attempt begins exactly when the run is queued, with attempts left, a full commit hash and capacity, and, after a
   * failure, once its delay is over. Claims of runs that are over or running are told so.
   */
  lemma ClaimIsGrantedExactlyWhen(r: Rows, now: int, capacity: bool)
    requires Consistent(r)
    ensures var (answer, r') := Step(r, Claim(now, capacity));
      && (answer == Started <==>
            && r.run == Queued && r.attempts < r.maxAttempts && r.commit.Some? && IsCommit(r.commit.value) && capacity
            && (r.attempts > 0 ==> r.finishedAt.Some? && now >= r.finishedAt.value + RetryDelay(r.attempts).value * SECOND))
      && (answer == AlreadySucceeded <==> r.run == Succeeded) && (answer == AlreadyCancelled <==> r.run == Cancelled)
      && (answer == InProgress <==> r.run == Running) && (r.run == Failed ==> answer == RaisedError)
      && (answer == Started ==> r'.run == r'.job == Running && r'.attempts == r.attempts + 1 && r'.stages == map[] && !r'.cancelRequested)
      && (answer == Started ==> r'.category == None && !r'.retryable && r'.finishedAt == None)
  {
    hide IsCommit;
  }

  /**
   * A failure is retried exactly when it is transient, no stage has a row and attempts are left; then the run is queued
   * again. Any other failure of a run that is open ends it.
   */
  lemma FailureIsRetriedExactlyWhen(r: Rows, error: Category, now: int)
    requires Consistent(r)
    ensures var (answer, r') := Step(r, FailRun(error, now));
      && (answer.RetryIn? <==> Open(r) && error == Transient && r.stages == map[] && r.attempts < r.maxAttempts)
      && (answer == Done <==> Open(r) && !(error == Transient && r.stages == map[] && r.attempts < r.maxAttempts))
      && (answer.RetryIn? ==> RetryDelay(r.attempts) == Some(answer.seconds) && r'.run == r'.job == Queued && Due(r') == Some(now + answer.seconds * SECOND))
      && (answer == Done ==> r'.run == r'.job == Failed && Due(r') == None)
      && (answer == RaisedCancelled <==> r.run == Running && r.cancelRequested)
      && r'.stages == r.stages && r'.attempts == r.attempts
      && (!answer.Raises() ==> r'.category == Some(error) && r'.retryable == answer.RetryIn? && r'.finishedAt == Some(now))
  {
    hide Doubled, Min;
  }

  /** A full commit hash is 40 lower-case hexadecimal digits. */
  lemma CommitLooksLike(s: string)
    ensures IsCommit(s) <==> |s| == 40 && forall i | 0 <= i < |s| :: s[i] in "0123456789abcdef"
  {
  }

  /** A new run is queued, with nothing done: its first claim is granted whenever it has an attempt, a commit and capacity. */
  lemma NewRunCanStart(maxAttempts: nat, commit: string, now: int)
    requires maxAttempts > 0 && IsCommit(commit)
    ensures Step(NewRun(maxAttempts, Some(commit)), Claim(now, true)).0 == Started
    ensures NewRun(maxAttempts, Some(commit)).stages == map[]
  {
  }

  /** Requests, checks and endings of runs. */
  lemma RunCallsTakeEffect(r: Rows, now: int, expected: seq<string>)
    requires Consistent(r)
    ensures var (answer, r') := Step(r, RequestCancel(now));
      && (answer == Done <==> r.run == Queued || Open(r)) && (answer == Declined <==> answer != Done)
      && (r.run == Queued ==> r'.run == r'.job == Cancelled) && (Open(r) ==> r' == r.(cancelRequested := true))
    ensures Step(r, CheckCancelled) == (if r.cancelRequested then RaisedCancelled else Done, r)
    ensures var (answer, r') := Step(r, CancelRun(now));
      && (answer == Done <==> r.run == Running || r.run == Cancelled) && (answer == Done ==> r'.run == r'.job == Cancelled && r'.cancelRequested)
      && (r.run == Running ==> r'.category == Some(Cancellation) && !r'.retryable && r'.finishedAt == Some(now))
      && r'.stages == r.stages
    ensures var (answer, r') := Step(r, CompleteRun(expected, now));
      && (answer == Done <==> Open(r) && r.commit.Some? && |r.stages| == |expected| && r.stages.Keys == (set s | s in expected)
                              && forall s | s in r.stages :: r.stages[s] == StageSucceeded || r.stages[s] == StageSkipped)
      && (answer == Done ==> r'.run == r'.job == Succeeded && r'.stages == r.stages && r'.category == None && r'.finishedAt == Some(now))
  {
    hide Due;
  }

  // ----- The wait before a retry -----

  /** The delays: 30 seconds, doubled after each attempt, and never more than 300. */
  lemma {:induction false} DelaysDouble(n: nat)
    requires n > 0
    ensures RetryDelay(n) == Some(if n == 1 then 30 else if n == 2 then 60 else if n == 3 then 120 else if n == 4 then 240 else 300)
  {
    var k := Min(n - 1, 4);
    assert Doubled(30, 0) == 30 && Doubled(30, 1) == 60 && Doubled(30, 2) == 120;
    assert Doubled(30, 3) == Doubled(60, 2) == 240;
    assert Doubled(30, 4) == Doubled(60, 3) == Doubled(120, 2) == 480;
    assert k == 0 || k == 1 || k == 2 || k == 3 || k == 4;
  }

  lemma DelayIsPositive(n: nat)
    ensures RetryDelay(n).Some? ==> RetryDelay(n).value >= 30
  {
    if n > 0 {
      DelaysDouble(n);
    }
  }

  /** Until the next granted claim a retry stays due at its time, unless the run is cancelled. */
  lemma {:induction false} RetryStaysDue(h: History, i: nat, j: nat, due: int)
    requires i <= j <= |h.calls|
    requires var r := Before(h, i); r.run == Queued && Due(r) == Some(due)
    requires forall k | i <= k < j :: Answered(h, k) != Started
    ensures var r := Before(h, j); r.run == Cancelled || (r.run == Queued && Due(r) == Some(due))
    decreases j
  {
    hide Before, Step;
    if i < j {
      RetryStaysDue(h, i, j - 1, due);
      CallMoves(h, j - 1);
      QueuedStays(Before(h, j - 1), h.calls[j - 1]);
    }
  }

  lemma QueuedStays(r: Rows, c: Call)
    requires Consistent(r)
    ensures var (answer, r') := Step(r, c); r.run == Queued ==> answer == Started || r' == r || r'.run == Cancelled
  {
    hide Due, IsCommit, RetryDelay;
  }

  /** What a claim is told while a retry is pending: to wait just as long as is left, in whole seconds. */
  lemma ClaimWaits(r: Rows, now: int, capacity: bool)
    requires Consistent(r) && r.run == Queued && Due(r).Some?
    ensures var answer := Step(r, Claim(now, capacity)).0;
      && (answer.Deferred? <==> now < Due(r).value)
      && (answer.Deferred? ==> now + (answer.seconds - 1) * SECOND < Due(r).value <= now + answer.seconds * SECOND)
  {
    hide IsCommit, RetryDelay;
  }

  /** The next attempt starts no earlier than the delay that `fail_run` returned, counted from its failure. */
  lemma BackoffIsHonoured(h: History, i: nat, j: nat)
    requires i < j < |h.calls| && h.calls[i].FailRun? && Answered(h, i).RetryIn?
    requires h.calls[j].Claim? && Answered(h, j) == Started
    requires forall k | i < k < j :: Answered(h, k) != Started
    ensures h.calls[j].now >= h.calls[i].now + Answered(h, i).seconds * 1_000_000
    ensures Answered(h, i).seconds >= 30
  {
    hide Before, Step, IsCommit;
    CallMoves(h, i);
    CallMoves(h, j);
    var r := Before(h, i + 1);
    RetryIsDue(Before(h, i), h.calls[i].error, h.calls[i].now);
    FailureIsRetriedExactlyWhen(Before(h, i), h.calls[i].error, h.calls[i].now);
    DelayIsPositive(Before(h, i).attempts);
    RetryStaysDue(h, i + 1, j, Due(r).value);
    ClaimWaits(Before(h, j), h.calls[j].now, h.calls[j].capacity);
  }

  lemma RetryIsDue(r: Rows, error: Category, now: int)
    requires Step(r, FailRun(error, now)).0.RetryIn?
    ensures var (answer, r') := Step(r, FailRun(error, now)); r'.run == Queued && Due(r') == Some(now + answer.seconds * SECOND)
  {
    hide Doubled, Min;
  }

  // ----- The end of the run -----

  /** At most one call ends the run, and nothing changes after it. */
  lemma RunEndsOnce(h: History, i: nat, j: nat)
    requires i < j <= |h.calls| && Before(h, i).run.Terminal()
    ensures Before(h, j) == Before(h, i)
  {
    hide Before;
    LaterExtends(h, i, j);
  }

  /** A run succeeds only with all expected stages, each succeeded or skipped, none of them twice, and no cancellation requested. */
  lemma SuccessIsComplete(h: History, i: nat)
    requires i < |h.calls| && Before(h, i).run != Succeeded && Before(h, i + 1).run == Succeeded
    ensures var r := Before(h, i + 1);
      && h.calls[i].CompleteRun? && !r.cancelRequested
      && r.stages.Keys == (set s | s in h.calls[i].expected) && Distinct(h.calls[i].expected)
      && (forall s | s in r.stages :: r.stages[s] == StageSucceeded || r.stages[s] == StageSkipped)
  {
    hide Before, Due, RetryDelay, IsCommit, Moves;
    CallMoves(h, i);
    if h.calls[i].CompleteRun? {
      AsManyAsDifferent(h.calls[i].expected);
      assert |Before(h, i).stages.Keys| == |Before(h, i).stages|;
    }
  }

  lemma {:induction false} AsManyAsDifferent(names: seq<string>)
    ensures |set s | s in names| <= |names|
    ensures |set s | s in names| == |names| ==> Distinct(names)
  {
    if names != [] {
      AsManyAsDifferent(names[1..]);
      assert names == [names[0]] + names[1..];
      assert (set s | s in names) == {names[0]} + (set s | s in names[1..]);
    }
  }

  /** The call leaves the run closed or queued again. */
  predicate Closes(c: Call, answer: Answer) { (c.FailRun? || c.CancelRun? || c.CompleteRun?) && !answer.Raises() }

  /** While no call closes the run and no request is accepted, the run stays open. */
  lemma {:induction false} StaysOpen(h: History, i: nat, j: nat)
    requires i <= j <= |h.calls| && Open(Before(h, i))
    requires forall k | i <= k < j :: !Closes(h.calls[k], Answered(h, k)) && !(h.calls[k].RequestCancel? && Answered(h, k) == Done)
    ensures Open(Before(h, j))
    decreases j
  {
    hide Before, Due, RetryDelay, IsCommit, Moves, Consistent, Extends;
    if i < j {
      StaysOpen(h, i, j - 1);
      CallMoves(h, j - 1);
    }
  }

  /** Every row has been inserted by some call. */
  lemma {:induction false} RowsWereInserted(h: History, j: nat, stage: string) returns (k: nat)
    requires j <= |h.calls| && stage in Before(h, j).stages
    ensures k < j && Inserts(h.calls[k], stage) && Answered(h, k) == Done
    decreases j
  {
    hide Step, Consistent, Extends;
    if stage in Before(h, j - 1).stages {
      k := RowsWereInserted(h, j - 1, stage);
    } else {
      CallMoves(h, j - 1);
      k := j - 1;
    }
  }

  /** The stage has been completed or skipped by call `k`. */
  predicate Settles(h: History, k: nat, stage: string)
    requires k < |h.calls|
  {
    (h.calls[k] == CompleteStage(stage) || h.calls[k] == SkipStage(stage)) && Answered(h, k) == Done
  }

  lemma SettledStays(h: History, k: nat, j: nat, stage: string)
    requires k < j <= |h.calls| && Settles(h, k, stage)
    ensures var r := Before(h, j); stage in r.stages && (r.stages[stage] == StageSucceeded || r.stages[stage] == StageSkipped)
  {
    hide Before, Step;
    CallMoves(h, k);
    StageCallsTakeEffect(Before(h, k), h.calls[k]);
    LaterExtends(h, k + 1, j);
  }

  /**
   * A run whose stages have all been completed or skipped succeeds: after a granted claim, when no call has closed the run
   * and no request was accepted, completing it with exactly those stages is done.
   */
  lemma CompletedRunSucceeds(h: History, i: nat, j: nat)
    requires i < j < |h.calls| && Answered(h, i) == Started && h.calls[j].CompleteRun? && Distinct(h.calls[j].expected)
    requires forall k | i < k < j :: !Closes(h.calls[k], Answered(h, k)) && !(h.calls[k].RequestCancel? && Answered(h, k) == Done)
    requires forall s | s in h.calls[j].expected :: exists k :: 0 <= k < j && Settles(h, k, s)
    requires forall k, s | 0 <= k < j && Inserts(h.calls[k], s) && Answered(h, k) == Done :: s in h.calls[j].expected
    ensures Answered(h, j) == Done && Before(h, j + 1).run == Succeeded
  {
    hide Before, Step, Settles, Consistent, Moves, IsCommit;
    var r, expected := Before(h, j), h.calls[j].expected;
    ClaimOpens(h, i, j);
    forall s | s in expected
      ensures s in r.stages && (r.stages[s] == StageSucceeded || r.stages[s] == StageSkipped)
    {
      var k :| 0 <= k < j && Settles(h, k, s);
      SettledStays(h, k, j, s);
    }
    forall s | s in r.stages
      ensures s in expected
    {
      var k := RowsWereInserted(h, j, s);
    }
    assert r.stages.Keys == set s | s in expected;
    Sorting.DistinctCardinality(expected);
    CallMoves(h, j);
    RunCallsTakeEffect(r, h.calls[j].now, expected);
  }

  lemma ClaimOpens(h: History, i: nat, j: nat)
    requires i < j < |h.calls| && Answered(h, i) == Started
    requires forall k | i < k < j :: !Closes(h.calls[k], Answered(h, k)) && !(h.calls[k].RequestCancel? && Answered(h, k) == Done)
    ensures Open(Before(h, j)) && Before(h, j).commit.Some? && Consistent(Before(h, j))
  {
    hide Before, Step, Consistent;
    CallMoves(h, i);
    CallMoves(h, j);
    ClaimIsGrantedExactlyWhen(Before(h, i), h.calls[i].now, h.calls[i].capacity);
    StaysOpen(h, i + 1, j);
    CommitStays(h, i, j);
  }

  lemma {:induction false} CommitStays(h: History, i: nat, j: nat)
    requires i <= j <= |h.calls|
    ensures Before(h, j).commit == Before(h, i).commit
    decreases j
  {
    hide Before, Step, Consistent, Extends;
    if i < j {
      CommitStays(h, i, j - 1);
      CallMoves(h, j - 1);
    }
  }

  // ----- Cancellation -----

  /**
   * Once a cancellation request is recorded the run can only be cancelled: no claim, start, skip, completion or
   * failure changes anything any more, and what still changes are stages to cancelled and the run to cancelled.
   */
  lemma RequestIsHonoured(h: History, i: nat, j: nat)
    requires i <= j < |h.calls| && Before(h, i).cancelRequested
    ensures var r, r' := Before(h, j), Before(h, j + 1);
      && (r.run == Running || r.run == Cancelled) && (r'.run == Running || r'.run == Cancelled)
      && (r' != r ==> r.run == Running && (h.calls[j].CancelStage? || (h.calls[j].CancelRun? && r'.run == Cancelled)))
  {
    hide Before, Due, RetryDelay, IsCommit, Moves;
    LaterExtends(h, i, j);
    CallMoves(h, j);
  }

  /** A request is recorded exactly when it is answered as new, and answered so at most once. */
  lemma OneRequestIsNew(h: History, i: nat, j: nat)
    requires i < j < |h.calls| && h.calls[i].RequestCancel? && h.calls[j].RequestCancel?
    requires Answered(h, i) == Done
    ensures Before(h, j).cancelRequested && Answered(h, j) == Declined
  {
    hide Before, Due, RetryDelay, IsCommit, Moves;
    CallMoves(h, i);
    LaterExtends(h, i + 1, j);
    CallMoves(h, j);
  }
}
