/**
 * One attempt at a generation run: a plan of stages executed against a persistent state store, with
 * cancellation requested from outside at any moment and with calls that may raise.
 *
 * The attempt is a machine that makes one call per step. A script answers the calls: whether a cancellation
 * request arrives first, and whether and what the call raises. Results hold for every script.
 */
module Generation {
  import opened Arithmetic
  import opened Prelude

  type Output = string

  /** A stage of the plan, and whether the plan skips it. */
  datatype PlanEntry = PlanEntry(name: string, skip: bool)

  predicate DistinctNames(plan: seq<PlanEntry>) {
    forall i, j | 0 <= i < j < |plan| :: plan[i].name != plan[j].name
  }

  /** The calls of `run` that may raise; `OutsideCall` is code outside the store. */
  datatype Call =
    | CheckCall | OutsideCall | ResolverCall | SkipCall | StartCall | CompleteCall | CompleteRunCall
    | FailStageCall | FailRunCall | CancelStageCall | CancelRunCall
  {
    predicate OfBody() {
      CheckCall? || OutsideCall? || ResolverCall? || SkipCall? || StartCall? || CompleteCall? || CompleteRunCall?
    }

    predicate Cancels() { CancelStageCall? || CancelRunCall? }

    predicate Fails() { CheckCall? || FailStageCall? || FailRunCall? }

    /** Made in the handlers of `run`, once something has raised. */
    predicate Closes() { Cancels() || Fails() }
  }

  datatype Raised = NoError | CancelledError | OtherError

  datatype Event =
    | CancelRequested
    | CallRaised(call: Call, error: Raised)
    | InputResolved(stage: string, outputs: map<string, Output>)
    | StageStarted(stage: string)
    | StageCompleted(stage: string, output: Output)
    | StageSkipped(stage: string)
    | StageFailed(stage: string)
    | StageCancelled(stage: string)
    | RunCompleted
    | RunFailed(active: Option<string>)
    | RunCancelled(active: Option<string>)

  // ----- What a log says -----

  datatype Raise = Raise(call: Call, error: Raised)

  /** A running account of a log. */
  datatype Account = Account(
    progress: seq<string>,             // stages completed or skipped, in order
    outputs: map<string, Output>,      // outputs of the completed ones
    faithful: bool,                    // every resolver saw exactly the outputs of the stages completed before
    started: multiset<string>,
    open: set<string>,                 // started, and not yet completed, failed or cancelled
    mostOpen: nat,
    endings: multiset<string>,         // one for each complete, skip, fail or cancel of a stage
    failed: set<string>,               // stages closed by a failure
    runEndings: nat,
    quietAfterEnd: bool,               // nothing but a late cancellation request follows the end of the run
    cancelRequested: bool,
    late: nat,                         // starts, completions, skips and failures of stages after the request
    raises: seq<Raise>)                // the calls that raised, in order

  const NOTHING := Account([], map[], true, multiset{}, {}, 0, multiset{}, {}, 0, true, false, 0, [])

  /** The end of a stage, by whichever event. */
  function Closed(a: Account, stage: string): Account {
    a.(open := a.open - {stage}, endings := a.endings + multiset{stage})
  }

  function Late(a: Account): Account { if a.cancelRequested then a.(late := a.late + 1) else a }

  function Record(a: Account, e: Event): Account {
    var b := a.(quietAfterEnd := a.quietAfterEnd && a.runEndings == 0);
    match e
    case CancelRequested => a.(cancelRequested := true)
    case CallRaised(call, error) => b.(raises := b.raises + [Raise(call, error)])
    case InputResolved(_, outputs) => b.(faithful := b.faithful && outputs == b.outputs)
    case StageStarted(s) =>
      var open := b.open + {s};
      Late(b.(started := b.started + multiset{s}, open := open, mostOpen := Max(b.mostOpen, |open|)))
    case StageCompleted(s, o) => Late(Closed(b.(progress := b.progress + [s], outputs := b.outputs[s := o]), s))
    case StageSkipped(s) => Late(Closed(b.(progress := b.progress + [s]), s))
    case StageFailed(s) => Late(Closed(b.(failed := b.failed + {s}), s))
    case StageCancelled(s) => Closed(b, s)
    case RunCompleted => b.(runEndings := b.runEndings + 1)
    case RunFailed(_) => b.(runEndings := b.runEndings + 1)
    case RunCancelled(_) => b.(runEndings := b.runEndings + 1)
  }

  function AccountOf(log: seq<Event>): Account {
    if log == [] then NOTHING else Record(AccountOf(log[..|log| - 1]), log[|log| - 1])
  }

  lemma AccountAppends(log: seq<Event>, e: Event)
    ensures AccountOf(log + [e]) == Record(AccountOf(log), e)
  {
    assert (log + [e])[..|log|] == log;
  }

  lemma RecordsRequest(a: Account, e: Event)
    ensures Record(a, e).cancelRequested <==> a.cancelRequested || e == CancelRequested
  {
  }

  lemma {:induction false} RequestedWhenLogged(log: seq<Event>)
    ensures AccountOf(log).cancelRequested <==> CancelRequested in log
  {
    hide Record;
    if log != [] {
      RequestedWhenLogged(log[..|log| - 1]);
      RecordsRequest(AccountOf(log[..|log| - 1]), log[|log| - 1]);
      assert log == log[..|log| - 1] + [log[|log| - 1]];
    }
  }

  // ----- The attempt as a machine -----

  /** How one call is answered. `output` is what a stage produces, `retryAfter` what `fail_run` returns. */
  datatype Answer = Answer(requested: bool, raised: Raised, output: Output, retryAfter: Option<nat>)

  const FINE := Answer(false, NoError, "", None)

  function First(script: seq<Answer>): Answer { if script == [] then FINE else script[0] }

  function Rest(script: seq<Answer>): seq<Answer> { if script == [] then [] else script[1..] }

  /** Time passes: a cancellation request may arrive. */
  function Heard(log: seq<Event>, answer: Answer): seq<Event> {
    if answer.requested then log + [CancelRequested] else log
  }

  /** `check_cancelled`: it returns only when no request is there, and raises CancelledError only for one. */
  function CheckResult(log: seq<Event>, answer: Answer): Raised {
    if answer.raised == OtherError then OtherError else if CancelRequested in log then CancelledError else NoError
  }

  /** How the call of `run` ends. `Escaped`: an error raised while closing the run reaches the caller as it is. */
  datatype Outcome =
    | AlreadySucceeded
    | InProgress
    | AlreadyCancelled
    | ClaimFailed
    | Succeeded(succeeded: seq<string>, skipped: seq<string>)
    | Cancelled(succeeded: seq<string>, skipped: seq<string>)
    | RetryScheduled(delay: nat)
    | ExecutionFailed(active: Option<string>)
    | Escaped
  {
    predicate NotStarted() { AlreadySucceeded? || InProgress? || AlreadyCancelled? || ClaimFailed? }

    predicate Failed() { RetryScheduled? || ExecutionFailed? }
  }

  /** The next call of `run`: in its body, in its handlers, or none. */
  datatype Point =
    | Begin | Assemble
    | Enter | Skip | Configure | ResolveInput | Identify | StartStage | Execute | Recheck | CompleteStage
    | FinalCheck | CompleteRun
    | HandlerCheck | FailStage | FailRun | CancelStage | CancelRun
    | Ended(outcome: Outcome)
  {
    /** In the loop over the plan, with an entry at hand. */
    predicate InEntry() {
      Enter? || Skip? || Configure? || ResolveInput? || Identify? || StartStage? || Execute? || Recheck? || CompleteStage?
    }

    predicate InBody() { InEntry() || Begin? || Assemble? || FinalCheck? || CompleteRun? }

    predicate Fails() { HandlerCheck? || FailStage? || FailRun? }

    /** How far the point is from the end of its part of the code. */
    function Rank(): nat {
      match this
      case Begin => 12
      case Assemble => 11
      case Enter => 10
      case Skip => 9
      case Configure => 8
      case ResolveInput => 7
      case Identify => 6
      case StartStage => 5
      case Execute => 4
      case Recheck => 3
      case CompleteStage => 2
      case FinalCheck => 1
      case CompleteRun => 0
      case HandlerCheck => 5
      case FailStage => 4
      case FailRun => 3
      case CancelStage => 2
      case CancelRun => 1
      case Ended(_) => 0
    }
  }

  /** The local variables of `run` and the log of its store. `k` entries are behind it. */
  datatype Attempt = Attempt(point: Point, k: nat, active: Option<string>, completed: map<string, Output>, output: Output,
                             succeeded: seq<string>, skipped: seq<string>, log: seq<Event>)

  const START := Attempt(Begin, 0, None, map[], "", [], [], [])

  function PlanOf(assembled: Option<seq<PlanEntry>>): seq<PlanEntry> {
    if assembled.Some? then assembled.value else []
  }

  predicate Sane(plan: seq<PlanEntry>, x: Attempt) {
    && x.k <= |plan|
    && (x.point.InEntry() ==> x.k < |plan|)
    && (x.point.Begin? || x.point.Assemble? ==> x.k == 0)
    && (x.point.FailStage? || x.point.CancelStage? ==> x.active.Some?)
  }

  /** To entry `k` of the plan, or past the loop. */
  function ToEntry(plan: seq<PlanEntry>, x: Attempt, k: nat): Attempt {
    if k < |plan| then x.(point := Enter, k := k, active := Some(plan[k].name)) else x.(point := FinalCheck, k := k, active := None)
  }

  /** `_cancelled_result` begins. */
  function Closing(x: Attempt): Attempt {
    x.(point := if x.active.Some? then CancelStage else CancelRun)
  }

  /** Where an error raised by the call at hand is caught, if it is. */
  function Caught(x: Attempt, error: Raised): Attempt {
    if x.point.InBody() then (if error == CancelledError then Closing(x) else x.(point := HandlerCheck))
    else if x.point.Fails() && error == CancelledError then Closing(x)
    else x.(point := Ended(Escaped))
  }

  function Go(x: Attempt, call: Call, raised: Raised, next: Attempt): Attempt {
    if raised == NoError then next else Caught(x.(log := x.log + [CallRaised(call, raised)]), raised)
  }

  /** `fail_stage` changes a running stage only, `cancel_stage` a running or a failed one. */
  function Failing(log: seq<Event>, stage: string): seq<Event> {
    if stage in AccountOf(log).open then log + [StageFailed(stage)] else log
  }

  function Cancelling(log: seq<Event>, stage: string): seq<Event> {
    if stage in AccountOf(log).open || stage in AccountOf(log).failed then log + [StageCancelled(stage)] else log
  }

  /** The body of `run` outside its loop. */
  function FrameStep(assembled: Option<seq<PlanEntry>>, x: Attempt, answer: Answer): Attempt
    requires Sane(PlanOf(assembled), x) && x.point.InBody() && !x.point.InEntry()
  {
    var h := x.(log := Heard(x.log, answer));
    var check, raised := CheckResult(h.log, answer), answer.raised;
    match x.point
    case Begin => Go(h, CheckCall, check, h.(point := Assemble))
    case Assemble =>
      Go(h, OutsideCall, if assembled.None? && raised == NoError then OtherError else raised, ToEntry(PlanOf(assembled), h, 0))
    case FinalCheck => Go(h, CheckCall, check, h.(point := CompleteRun))
    case CompleteRun => Go(h, CompleteRunCall, raised, h.(log := h.log + [RunCompleted], point := Ended(Succeeded(x.succeeded, x.skipped))))
  }

  /** One entry of the plan: skipped, or executed. */
  function EntryStep(plan: seq<PlanEntry>, x: Attempt, answer: Answer): Attempt
    requires Sane(plan, x) && x.point.InEntry()
  {
    var h := x.(log := Heard(x.log, answer));
    var check, raised, name := CheckResult(h.log, answer), answer.raised, plan[x.k].name;
    match x.point
    case Enter => Go(h, CheckCall, check, h.(point := if plan[x.k].skip then Skip else Configure))
    case Skip => Go(h, SkipCall, raised, ToEntry(plan, h.(log := h.log + [StageSkipped(name)], skipped := h.skipped + [name]), x.k + 1))
    case Configure => Go(h, OutsideCall, raised, h.(point := ResolveInput))
    case ResolveInput =>
      var called := h.(log := h.log + [InputResolved(name, x.completed)]);
      Go(called, ResolverCall, raised, called.(point := Identify))
    case Identify => Go(h, OutsideCall, raised, h.(point := StartStage))
    case StartStage => Go(h, StartCall, raised, h.(point := Execute, log := h.log + [StageStarted(name)]))
    case Execute => Go(h, OutsideCall, raised, h.(point := Recheck, output := answer.output))
    case Recheck => Go(h, CheckCall, check, h.(point := CompleteStage))
    case CompleteStage => Go(h, CompleteCall, raised, ToEntry(plan, Completed(h, name), x.k + 1))
  }

  function Completed(h: Attempt, name: string): Attempt {
    h.(log := h.log + [StageCompleted(name, h.output)], completed := h.completed[name := h.output], succeeded := h.succeeded + [name])
  }

  /** The handlers of `run`, and `_cancelled_result`. */
  function HandlerStep(plan: seq<PlanEntry>, x: Attempt, answer: Answer): Attempt
    requires Sane(plan, x) && !x.point.InBody()
  {
    var h := x.(log := Heard(x.log, answer));
    var check, raised := CheckResult(h.log, answer), answer.raised;
    match x.point
    case HandlerCheck => Go(h, CheckCall, check, h.(point := if x.active.Some? then FailStage else FailRun))
    case FailStage => Go(h, FailStageCall, raised, h.(log := Failing(h.log, x.active.value), point := FailRun))
    case FailRun =>
      var outcome := if answer.retryAfter.Some? then RetryScheduled(answer.retryAfter.value) else ExecutionFailed(x.active);
      Go(h, FailRunCall, raised, h.(log := h.log + [RunFailed(x.active)], point := Ended(outcome)))
    case CancelStage => Go(h, CancelStageCall, raised, h.(log := Cancelling(h.log, x.active.value), point := CancelRun))
    case CancelRun => Go(h, CancelRunCall, raised, h.(log := h.log + [RunCancelled(x.active)], point := Ended(Cancelled(x.succeeded, x.skipped))))
    case Ended(_) => x
  }

  function Step(assembled: Option<seq<PlanEntry>>, x: Attempt, answer: Answer): Attempt
    requires Sane(PlanOf(assembled), x)
  {
    if x.point.InEntry() then EntryStep(PlanOf(assembled), x, answer)
    else if x.point.InBody() then FrameStep(assembled, x, answer)
    else HandlerStep(PlanOf(assembled), x, answer)
  }

  /** A step of the body stays in it with less to do, or leaves it. */
  predicate Onward(plan: seq<PlanEntry>, x: Attempt, y: Attempt) {
    Sane(plan, y) && (y.point.InBody() ==> y.k > x.k || (y.k == x.k && y.point.Rank() < x.point.Rank()))
  }

  lemma FrameStepIsOnward(assembled: Option<seq<PlanEntry>>, x: Attempt, answer: Answer)
    requires Sane(PlanOf(assembled), x) && x.point.InBody() && !x.point.InEntry()
    ensures Onward(PlanOf(assembled), x, FrameStep(assembled, x, answer))
  {
    hide CheckResult, Heard;
  }

  lemma EntryStepIsOnward(plan: seq<PlanEntry>, x: Attempt, answer: Answer)
    requires Sane(plan, x) && x.point.InEntry()
    ensures Onward(plan, x, EntryStep(plan, x, answer))
  {
    hide CheckResult, Heard;
  }

  lemma HandlerStepStaysSane(plan: seq<PlanEntry>, x: Attempt, answer: Answer)
    requires Sane(plan, x) && !x.point.InBody() && !x.point.Ended?
    ensures var y := HandlerStep(plan, x, answer);
      Sane(plan, y) && !y.point.InBody() && y.k == x.k && y.point.Rank() < x.point.Rank()
  {
    hide CheckResult, Heard, Failing, Cancelling;
  }

  /** Every step leaves less to do. */
  lemma StepGoesOn(assembled: Option<seq<PlanEntry>>, x: Attempt, answer: Answer)
    requires Sane(PlanOf(assembled), x) && !x.point.Ended?
    ensures var y := Step(assembled, x, answer);
      if x.point.InBody() then Onward(PlanOf(assembled), x, y)
      else Sane(PlanOf(assembled), y) && !y.point.InBody() && y.k == x.k && y.point.Rank() < x.point.Rank()
  {
    if x.point.InEntry() {
      EntryStepIsOnward(PlanOf(assembled), x, answer);
    } else if x.point.InBody() {
      FrameStepIsOnward(assembled, x, answer);
    } else {
      HandlerStepStaysSane(PlanOf(assembled), x, answer);
    }
  }

  /** The attempt from `x` to its end. */
  function Finish(assembled: Option<seq<PlanEntry>>, x: Attempt, script: seq<Answer>): (r: Attempt)
    requires Sane(PlanOf(assembled), x)
    ensures Sane(PlanOf(assembled), r) && r.point.Ended?
    decreases x.point.InBody(), |PlanOf(assembled)| - x.k, x.point.Rank()
  {
    if x.point.Ended? then x
    else
      var y := Step(assembled, x, First(script));
      StepGoesOn(assembled, x, First(script));
      Finish(assembled, y, Rest(script))
  }

  lemma FinishUnfolds(assembled: Option<seq<PlanEntry>>, x: Attempt, script: seq<Answer>)
    requires Sane(PlanOf(assembled), x) && !x.point.Ended? && Sane(PlanOf(assembled), Step(assembled, x, First(script)))
    ensures Finish(assembled, x, script) == Finish(assembled, Step(assembled, x, First(script)), Rest(script))
  {
    hide Step, Sane;
  }

  lemma EndedFinishes(assembled: Option<seq<PlanEntry>>, x: Attempt, script: seq<Answer>)
    requires Sane(PlanOf(assembled), x) && x.point.Ended?
    ensures Finish(assembled, x, script) == x
  {
  }
}
