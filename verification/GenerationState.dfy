/**
 * The rows behind a generation run: the run, its job and its stage results. Every call of the state store is one
 * transaction over them, so any number of workers, attempts and requests amount to one sequence of calls.
 */
module GenerationState {
  import opened Arithmetic
  import opened Prelude

  datatype Status = Queued | Running | Succeeded | Failed | Cancelled {
    predicate Terminal() { Succeeded? || Failed? || Cancelled? }
  }

  datatype StageStatus = StageRunning | StageSucceeded | StageSkipped | StageFailed | StageCancelled

  datatype Category = Domain | Config | Data | Transient | Permanent | Cancellation

  /** `category`, `retryable` and `finishedAt` describe the last failure of the job. Times are in microseconds. */
  datatype Rows = Rows(run: Status, job: Status, attempts: nat, maxAttempts: nat, cancelRequested: bool,
                       category: Option<Category>, retryable: bool, finishedAt: Option<int>,
                       commit: Option<string>, stages: map<string, StageStatus>)

  datatype Call =
    | Claim(now: int, capacity: bool)
    | RequestCancel(now: int)
    | CheckCancelled
    | StartStage(stage: string)
    | SkipStage(stage: string)
    | CompleteStage(stage: string)
    | FailStage(stage: string)
    | CancelStage(stage: string)
    | CompleteRun(expected: seq<string>, now: int)
    | FailRun(error: Category, now: int)
    | CancelRun(now: int)

  /** What a call returns or raises. `Deferred` is what an early claim raises, `RetryIn` what `fail_run` returns. */
  datatype Answer =
    | Started | AlreadySucceeded | InProgress | AlreadyCancelled
    | Done | Declined | RetryIn(seconds: nat)
    | Deferred(seconds: nat) | RaisedCancelled | RaisedError
  {
    predicate Raises() { Deferred? || RaisedCancelled? || RaisedError? }
  }

  const SECOND: nat := 1_000_000

  function Doubled(n: nat, times: nat): nat
    decreases times
  {
    if times == 0 then n else Doubled(2 * n, times - 1)
  }

  /** Seconds to wait after an attempt; there is no such thing before the first one. */
  function RetryDelay(attempts: nat): Option<nat> {
    if attempts < 1 then None else Some(Min(Doubled(30, Min(attempts - 1, 4)), 300))
  }

  predicate IsCommit(s: string) {
    |s| == 40 && forall i | 0 <= i < |s| :: '0' <= s[i] <= '9' || 'a' <= s[i] <= 'f'
  }

  function NewRun(maxAttempts: nat, commit: Option<string>): Rows {
    Rows(Queued, Queued, 0, maxAttempts, false, None, false, None, commit, map[])
  }

  // ----- One call -----

  function SetCancelled(r: Rows, now: int): Rows {
    r.(run := Cancelled, job := Cancelled, cancelRequested := true, category := Some(Cancellation), retryable := false,
       finishedAt := Some(now))
  }

  /** When a retry becomes due, if one is pending. */
  function Due(r: Rows): Option<int> {
    if r.category == Some(Transient) && r.retryable && r.finishedAt.Some? && RetryDelay(r.attempts).Some?
    then Some(r.finishedAt.value + RetryDelay(r.attempts).value * SECOND) else None
  }

  function Claiming(r: Rows, now: int, capacity: bool): (Answer, Rows) {
    if r.run == Succeeded && r.job == Succeeded then (AlreadySucceeded, r)
    else if r.run == Cancelled && r.job == Cancelled then (AlreadyCancelled, r)
    else if r.run == Running && r.job == Running then (InProgress, r)
    else if r.run != Queued || r.job != Queued then (RaisedError, r)
    else if r.cancelRequested then (RaisedCancelled, r)
    else if r.category == Some(Transient) && r.retryable && r.finishedAt.Some? && Due(r).None? then (RaisedError, r)
    else if Due(r).Some? && Due(r).value > now then (Deferred(Max(1, (Due(r).value - now + SECOND - 1) / SECOND)), r)
    else if r.attempts >= r.maxAttempts then (RaisedError, r)
    else if r.commit.None? || !IsCommit(r.commit.value) then (RaisedError, r)
    else if !capacity then (RaisedError, r)
    else (Started, r.(run := Running, job := Running, attempts := r.attempts + 1, category := None, retryable := false, finishedAt := None))
  }

  function Requesting(r: Rows, now: int): (Answer, Rows) {
    if r.run.Terminal() then (Declined, r)
    else if r.job != r.run then (RaisedError, r)
    else if r.cancelRequested then (Declined, r)
    else if r.run == Queued then (Done, SetCancelled(r, now))
    else (Done, r.(cancelRequested := true))
  }

  /** What start, skip and completion of a stage ask for first. */
  function Refusal(r: Rows): Option<Answer> {
    if r.run != Running then Some(RaisedError) else if r.cancelRequested then Some(RaisedCancelled) else None
  }

  /** A row for a stage that has none. */
  function Inserting(r: Rows, stage: string, status: StageStatus): (Answer, Rows) {
    if Refusal(r).Some? then (Refusal(r).value, r)
    else if stage in r.stages then (RaisedError, r)
    else (Done, r.(stages := r.stages[stage := status]))
  }

  function Completing(r: Rows, stage: string): (Answer, Rows) {
    if Refusal(r).Some? then (Refusal(r).value, r)
    else if stage !in r.stages || r.stages[stage] != StageRunning then (RaisedError, r)
    else (Done, r.(stages := r.stages[stage := StageSucceeded]))
  }

  function FailingStage(r: Rows, stage: string): (Answer, Rows) {
    if r.run != Running then (Done, r)
    else if stage !in r.stages || r.stages[stage] != StageRunning then (Done, r)
    else if r.cancelRequested then (RaisedCancelled, r)
    else (Done, r.(stages := r.stages[stage := StageFailed]))
  }

  function CancellingStage(r: Rows, stage: string): (Answer, Rows) {
    if r.run != Running then (Done, r)
    else if stage !in r.stages || (r.stages[stage] != StageRunning && r.stages[stage] != StageFailed) then (Done, r)
    else (Done, r.(stages := r.stages[stage := StageCancelled]))
  }

  /** Exactly the expected stages have rows, and all of them succeeded or were skipped. */
  predicate Complete(r: Rows, expected: seq<string>) {
    && |r.stages| == |expected| && r.stages.Keys == (set s | s in expected)
    && forall s | s in r.stages :: r.stages[s] == StageSucceeded || r.stages[s] == StageSkipped
  }

  function Succeeding(r: Rows, expected: seq<string>, now: int): (Answer, Rows) {
    if Refusal(r).Some? then (Refusal(r).value, r)
    else if !Complete(r, expected) then (RaisedError, r)
    else if r.commit.None? then (RaisedError, r)
    else if r.job != Running then (RaisedError, r)
    else (Done, r.(run := Succeeded, job := Succeeded, category := None, retryable := false, finishedAt := Some(now)))
  }

  function FailingRun(r: Rows, error: Category, now: int): (Answer, Rows) {
    if r.run != Running || r.job != Running then (RaisedError, r)
    else if r.cancelRequested then (RaisedCancelled, r)
    else
      var retryable := error == Transient && r.stages == map[] && r.attempts < r.maxAttempts;
      var status := if retryable then Queued else Failed;
      var delay := RetryDelay(r.attempts);
      if retryable && delay.None? then (RaisedError, r)
      else (if retryable then RetryIn(delay.value) else Done,
            r.(run := status, job := status, category := Some(error), retryable := retryable, finishedAt := Some(now)))
  }

  function CancellingRun(r: Rows, now: int): (Answer, Rows) {
    if r.run == Cancelled && r.job == Cancelled then (Done, r)
    else if r.run != Running || r.job != Running then (RaisedError, r)
    else (Done, SetCancelled(r, now))
  }

  function Step(r: Rows, c: Call): (Answer, Rows) {
    match c
    case Claim(now, capacity) => Claiming(r, now, capacity)
    case RequestCancel(now) => Requesting(r, now)
    case CheckCancelled => (if r.cancelRequested then RaisedCancelled else Done, r)
    case StartStage(stage) => Inserting(r, stage, StageRunning)
    case SkipStage(stage) => Inserting(r, stage, StageSkipped)
    case CompleteStage(stage) => Completing(r, stage)
    case FailStage(stage) => FailingStage(r, stage)
    case CancelStage(stage) => CancellingStage(r, stage)
    case CompleteRun(expected, now) => Succeeding(r, expected, now)
    case FailRun(error, now) => FailingRun(r, error, now)
    case CancelRun(now) => CancellingRun(r, now)
  }

  // ----- Histories: the calls of all workers, attempts and requests, in the order of their transactions -----

  function After(r: Rows, calls: seq<Call>): Rows {
    if calls == [] then r else Step(After(r, calls[..|calls| - 1]), calls[|calls| - 1]).1
  }

  function AnswerTo(r: Rows, calls: seq<Call>, i: nat): Answer
    requires i < |calls|
  {
    Step(After(r, calls[..i]), calls[i]).0
  }

  lemma AfterNext(r: Rows, calls: seq<Call>, i: nat)
    requires i < |calls|
    ensures After(r, calls[..i + 1]) == Step(After(r, calls[..i]), calls[i]).1
  {
    assert calls[..i + 1][..i] == calls[..i];
  }

  /** What the three tables have to do with each other. */
  ghost predicate Consistent(r: Rows) {
    && r.run == r.job && r.attempts <= r.maxAttempts
    && (r.run == Queued ==> r.stages == map[] && !r.cancelRequested && (r.attempts == 0 <==> Due(r).None?)
                            && (r.category == Some(Transient) && r.retryable ==> Due(r).Some?))
    && (r.run == Running ==> r.attempts > 0)
    && (r.run == Succeeded ==> forall s | s in r.stages :: r.stages[s] == StageSucceeded || r.stages[s] == StageSkipped)
    && (r.run == Succeeded || r.run == Failed ==> !r.cancelRequested)
    && (r.run == Cancelled ==> r.cancelRequested)
  }

  /** The ways a stage row can go on. */
  predicate Onward(a: StageStatus, b: StageStatus) {
    a == b || (a == StageRunning && b != StageSkipped) || (a == StageFailed && b == StageCancelled)
  }

  /** What one call can change. */
  ghost predicate Moves(r: Rows, c: Call, answer: Answer, r': Rows) {
    && r'.maxAttempts == r.maxAttempts && r'.commit == r.commit
    && (answer.Raises() || r.run.Terminal() ==> r' == r)
    && (r.cancelRequested ==> r'.cancelRequested)
    && (answer == Started ==> c.Claim? && r.run == Queued && r'.run == Running && r'.attempts == r.attempts + 1)
    && (answer != Started ==> r'.attempts == r.attempts && (r'.run == r.run || r'.run != Running))
    && (r'.run == Queued && r.run != Queued ==> c.FailRun? && answer.RetryIn?)
    && r.stages.Keys <= r'.stages.Keys
    && (forall s | s in r.stages :: Onward(r.stages[s], r'.stages[s]))
    && (forall s | s in r'.stages && s !in r.stages :: Inserts(c, s) && answer == Done)
    && (forall s | Inserts(c, s) && answer == Done :: s !in r.stages && s in r'.stages)
  }

  predicate Inserts(c: Call, stage: string) { (c.StartStage? || c.SkipStage?) && c.stage == stage }

  lemma StageCallKeeps(r: Rows, c: Call)
    requires Consistent(r) && (c.StartStage? || c.SkipStage? || c.CompleteStage? || c.FailStage? || c.CancelStage?)
    ensures var (answer, r') := Step(r, c); Consistent(r') && Moves(r, c, answer, r')
  {
    hide Min, Doubled;
  }

  lemma RunCallKeeps(r: Rows, c: Call)
    requires Consistent(r) && (c.RequestCancel? || c.CheckCancelled? || c.CompleteRun? || c.FailRun? || c.CancelRun?)
    ensures var (answer, r') := Step(r, c); Consistent(r') && Moves(r, c, answer, r')
  {
    hide Min, Doubled;
  }

  lemma ClaimKeeps(r: Rows, c: Call)
    requires Consistent(r) && c.Claim?
    ensures var (answer, r') := Step(r, c); Consistent(r') && Moves(r, c, answer, r')
  {
    hide Min, Doubled, IsCommit;
  }

  lemma StepKeeps(r: Rows, c: Call)
    requires Consistent(r)
    ensures var (answer, r') := Step(r, c); Consistent(r') && Moves(r, c, answer, r')
  {
    hide Consistent, Moves, Step;
    if c.Claim? {
      ClaimKeeps(r, c);
    } else if c.RequestCancel? || c.CheckCancelled? || c.CompleteRun? || c.FailRun? || c.CancelRun? {
      RunCallKeeps(r, c);
    } else {
      StageCallKeeps(r, c);
    }
  }

  lemma {:induction false} HistoryKeeps(r: Rows, calls: seq<Call>)
    requires Consistent(r)
    ensures Consistent(After(r, calls))
  {
    hide Consistent, Step;
    if calls != [] {
      HistoryKeeps(r, calls[..|calls| - 1]);
      StepKeeps(After(r, calls[..|calls| - 1]), calls[|calls| - 1]);
    }
  }
}
