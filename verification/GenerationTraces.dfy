/**
 * The calls of an attempt with the answers they got, and what they have to do with its log and its end: where each
 * output comes from, how promptly a cancellation request is noticed, what an undisturbed run does, call by call.
 */
module GenerationTraces {
  import opened Prelude
  import opened Generation

  /** One call: where the attempt stood, and how the call was answered. */
  datatype Made = Made(at: Attempt, answer: Answer)

  /** The calls from `x` on, in order. */
  function Trace(assembled: Option<seq<PlanEntry>>, x: Attempt, script: seq<Answer>): seq<Made>
    requires Sane(PlanOf(assembled), x)
    decreases x.point.InBody(), |PlanOf(assembled)| - x.k, x.point.Rank()
  {
    if x.point.Ended? then []
    else
      var y := Step(assembled, x, First(script));
      StepGoesOn(assembled, x, First(script));
      [Made(x, First(script))] + Trace(assembled, y, Rest(script))
  }

  // ----- Outputs -----

  /** The stage was executed without raising, and this is what the execution was answered with. */
  ghost predicate Produced(calls: seq<Made>, stage: string, output: Output) {
    exists c | c in calls :: c.at.point.Execute? && c.at.active == Some(stage) && c.answer.raised == NoError && c.answer.output == output
  }

  /** Every output in the log, completed or shown to a resolver, was produced by the execution of its stage. */
  ghost predicate OutputsAreProduced(log: seq<Event>, calls: seq<Made>) {
    forall e | e in log ::
      && (e.StageCompleted? ==> Produced(calls, e.stage, e.output))
      && (e.InputResolved? ==> forall s | s in e.outputs :: Produced(calls, s, e.outputs[s]))
  }

  ghost predicate ProducedSoFar(plan: seq<PlanEntry>, x: Attempt, calls: seq<Made>) {
    && OutputsAreProduced(x.log, calls)
    && (forall s | s in x.completed :: Produced(calls, s, x.completed[s]))
    && (x.point.InEntry() ==> x.k < |plan| && x.active == Some(plan[x.k].name))
    && (x.point.Recheck? || x.point.CompleteStage? ==> Produced(calls, plan[x.k].name, x.output))
  }

  lemma MoreCalls(calls: seq<Made>, c: Made, log: seq<Event>)
    requires OutputsAreProduced(log, calls)
    ensures OutputsAreProduced(log, calls + [c])
    ensures forall s, o | Produced(calls, s, o) :: Produced(calls + [c], s, o)
  {
    forall s, o | Produced(calls, s, o)
      ensures Produced(calls + [c], s, o)
    {
      var d :| d in calls && d.at.point.Execute? && d.at.active == Some(s) && d.answer.raised == NoError && d.answer.output == o;
      assert d in calls + [c];
    }
  }

  /** What a step adds to the log, and where outputs come from, apart from the execution itself. */
  ghost predicate AddsOnly(plan: seq<PlanEntry>, x: Attempt, y: Attempt)
    requires Sane(plan, x)
  {
    && (forall e | e in y.log :: e in x.log
          || (!e.StageCompleted? && !e.InputResolved?)
          || (x.point.CompleteStage? && e == StageCompleted(plan[x.k].name, x.output))
          || (x.point.ResolveInput? && e == InputResolved(plan[x.k].name, x.completed)))
    && (y.completed == x.completed || (x.point.CompleteStage? && y.completed == x.completed[plan[x.k].name := x.output]))
    && (y.point.InEntry() ==> y.k < |plan| && y.active == Some(plan[y.k].name))
    && (y.point.CompleteStage? ==> x.point.Recheck? && y.output == x.output && y.k == x.k)
    && (y.point.Recheck? ==> x.point.Execute? && y.k == x.k)
  }

  lemma HeardAdds(log: seq<Event>, answer: Answer)
    ensures forall e | e in Heard(log, answer) :: e in log || e == CancelRequested
  {
  }

  /** Where a call leads: on, or to a handler. */
  lemma GoLeads(x: Attempt, call: Call, raised: Raised, next: Attempt)
    ensures var y := Go(x, call, raised, next);
      || (raised == NoError && y == next)
      || (raised != NoError && !y.point.InBody() && y.completed == x.completed && y.log == x.log + [CallRaised(call, raised)]
          && y.active == x.active && y.k == x.k && (y.point.Ended? ==> y.point.outcome == Escaped))
  {
  }

  lemma EntryStepAddsOnly(plan: seq<PlanEntry>, x: Attempt, answer: Answer)
    requires Sane(plan, x) && x.point.InEntry() && x.active == Some(plan[x.k].name)
    ensures AddsOnly(plan, x, EntryStep(plan, x, answer))
    ensures x.point.Execute? && EntryStep(plan, x, answer).point.Recheck? ==>
      EntryStep(plan, x, answer).output == answer.output && answer.raised == NoError
  {
    hide AccountOf, CheckResult, Heard, Go;
    HeardAdds(x.log, answer);
    var h := x.(log := Heard(x.log, answer));
    var check, raised, name := CheckResult(h.log, answer), answer.raised, plan[x.k].name;
    match x.point {
      case Enter => GoLeads(h, CheckCall, check, h.(point := if plan[x.k].skip then Skip else Configure));
      case Skip => GoLeads(h, SkipCall, raised, ToEntry(plan, h.(log := h.log + [StageSkipped(name)], skipped := h.skipped + [name]), x.k + 1));
      case Configure => GoLeads(h, OutsideCall, raised, h.(point := ResolveInput));
      case ResolveInput =>
        var called := h.(log := h.log + [InputResolved(name, x.completed)]);
        GoLeads(called, ResolverCall, raised, called.(point := Identify));
      case Identify => GoLeads(h, OutsideCall, raised, h.(point := StartStage));
      case StartStage => GoLeads(h, StartCall, raised, h.(point := Execute, log := h.log + [StageStarted(name)]));
      case Execute => GoLeads(h, OutsideCall, raised, h.(point := Recheck, output := answer.output));
      case Recheck => GoLeads(h, CheckCall, check, h.(point := CompleteStage));
      case CompleteStage => GoLeads(h, CompleteCall, raised, ToEntry(plan, Completed(h, name), x.k + 1));
    }
  }

  lemma FrameStepAddsOnly(assembled: Option<seq<PlanEntry>>, x: Attempt, answer: Answer)
    requires Sane(PlanOf(assembled), x) && x.point.InBody() && !x.point.InEntry()
    ensures AddsOnly(PlanOf(assembled), x, FrameStep(assembled, x, answer))
  {
    hide AccountOf, CheckResult, Heard, Go;
    HeardAdds(x.log, answer);
    var h := x.(log := Heard(x.log, answer));
    var check, raised := CheckResult(h.log, answer), answer.raised;
    match x.point {
      case Begin => GoLeads(h, CheckCall, check, h.(point := Assemble));
      case Assemble =>
        GoLeads(h, OutsideCall, if assembled.None? && raised == NoError then OtherError else raised, ToEntry(PlanOf(assembled), h, 0));
      case FinalCheck => GoLeads(h, CheckCall, check, h.(point := CompleteRun));
      case CompleteRun =>
        GoLeads(h, CompleteRunCall, raised, h.(log := h.log + [RunCompleted], point := Ended(Succeeded(x.succeeded, x.skipped))));
    }
  }

  lemma HandlerStepAddsOnly(plan: seq<PlanEntry>, x: Attempt, answer: Answer)
    requires Sane(plan, x) && !x.point.InBody() && !x.point.Ended?
    ensures AddsOnly(plan, x, HandlerStep(plan, x, answer))
  {
    hide AccountOf, CheckResult, Heard, Go;
    HeardAdds(x.log, answer);
    var h := x.(log := Heard(x.log, answer));
    var check, raised := CheckResult(h.log, answer), answer.raised;
    match x.point {
      case HandlerCheck => GoLeads(h, CheckCall, check, h.(point := if x.active.Some? then FailStage else FailRun));
      case FailStage => GoLeads(h, FailStageCall, raised, h.(log := Failing(h.log, x.active.value), point := FailRun));
      case FailRun =>
        var outcome := if answer.retryAfter.Some? then RetryScheduled(answer.retryAfter.value) else ExecutionFailed(x.active);
        GoLeads(h, FailRunCall, raised, h.(log := h.log + [RunFailed(x.active)], point := Ended(outcome)));
      case CancelStage => GoLeads(h, CancelStageCall, raised, h.(log := Cancelling(h.log, x.active.value), point := CancelRun));
      case CancelRun =>
        GoLeads(h, CancelRunCall, raised, h.(log := h.log + [RunCancelled(x.active)], point := Ended(Cancelled(x.succeeded, x.skipped))));
    }
  }

  lemma StepAddsOnly(assembled: Option<seq<PlanEntry>>, x: Attempt, answer: Answer)
    requires Sane(PlanOf(assembled), x) && !x.point.Ended?
    requires x.point.InEntry() ==> x.active == Some(PlanOf(assembled)[x.k].name)
    ensures AddsOnly(PlanOf(assembled), x, Step(assembled, x, answer))
    ensures x.point.Execute? && Step(assembled, x, answer).point.Recheck? ==>
      Step(assembled, x, answer).output == answer.output && answer.raised == NoError
  {
    hide AddsOnly, EntryStep, FrameStep, HandlerStep;
    if x.point.InEntry() {
      EntryStepAddsOnly(PlanOf(assembled), x, answer);
    } else if x.point.InBody() {
      FrameStepAddsOnly(assembled, x, answer);
    } else {
      HandlerStepAddsOnly(PlanOf(assembled), x, answer);
    }
  }

  lemma StepKeepsProduced(assembled: Option<seq<PlanEntry>>, x: Attempt, answer: Answer, calls: seq<Made>)
    requires Sane(PlanOf(assembled), x) && !x.point.Ended? && ProducedSoFar(PlanOf(assembled), x, calls)
    ensures ProducedSoFar(PlanOf(assembled), Step(assembled, x, answer), calls + [Made(x, answer)])
  {
    hide Step, Produced, Sane;
    StepAddsOnly(assembled, x, answer);
    MoreCalls(calls, Made(x, answer), x.log);
    var y := Step(assembled, x, answer);
    if y.point.Recheck? {
      ExecutionProduces(calls, Made(x, answer), PlanOf(assembled)[x.k].name);
    }
  }

  lemma ExecutionProduces(calls: seq<Made>, c: Made, stage: string)
    requires c.at.point.Execute? && c.at.active == Some(stage) && c.answer.raised == NoError
    ensures Produced(calls + [c], stage, c.answer.output)
  {
    assert c in calls + [c];
  }

  lemma {:induction false} FinishKeepsProduced(assembled: Option<seq<PlanEntry>>, x: Attempt, script: seq<Answer>, calls: seq<Made>)
    requires Sane(PlanOf(assembled), x) && ProducedSoFar(PlanOf(assembled), x, calls)
    ensures OutputsAreProduced(Finish(assembled, x, script).log, calls + Trace(assembled, x, script))
    decreases x.point.InBody(), |PlanOf(assembled)| - x.k, x.point.Rank()
  {
    hide Step, OutputsAreProduced;
    if x.point.Ended? {
      assert calls + [] == calls;
    } else {
      var made := Made(x, First(script));
      var y := Step(assembled, x, First(script));
      StepGoesOn(assembled, x, First(script));
      StepKeepsProduced(assembled, x, First(script), calls);
      FinishKeepsProduced(assembled, y, Rest(script), calls + [made]);
      FinishUnfolds(assembled, x, script);
      assert calls + ([made] + Trace(assembled, y, Rest(script))) == calls + [made] + Trace(assembled, y, Rest(script));
    }
  }

  /** Whatever is raised or requested, each output in the log is the one that the execution of its stage was answered with. */
  lemma OutputsComeFromExecutions(assembled: Option<seq<PlanEntry>>, script: seq<Answer>)
    ensures OutputsAreProduced(Finish(assembled, START, script).log, Trace(assembled, START, script))
  {
    FinishKeepsProduced(assembled, START, script, []);
    assert [] + Trace(assembled, START, script) == Trace(assembled, START, script);
  }
  // ----- Cancellation requests -----

  predicate Forward(e: Event) { e.StageSkipped? || e.StageCompleted? || e.RunCompleted? }

  /** Nothing goes forward after a cancellation request, unless the request came with that very call. */
  predicate JustInTime(log: seq<Event>) {
    forall i | 0 <= i < |log| && Forward(log[i]) && CancelRequested in log[..i] :: log[i - 1] == CancelRequested && CancelRequested !in log[..i - 1]
  }

  /** A forward call comes right after a check. */
  predicate Prompt(x: Attempt) {
    JustInTime(x.log) && (x.point.Skip? || x.point.CompleteStage? || x.point.CompleteRun? ==> CancelRequested !in x.log)
  }

  lemma OtherEvent(log: seq<Event>, e: Event)
    requires JustInTime(log) && !Forward(e)
    ensures JustInTime(log + [e])
  {
    var more := log + [e];
    forall i | 0 <= i < |more| && Forward(more[i]) && CancelRequested in more[..i]
      ensures more[i - 1] == CancelRequested && CancelRequested !in more[..i - 1]
    {
      assert more[..i] == log[..i] && more[..i - 1] == log[..i - 1];
    }
  }

  lemma HeardInTime(log: seq<Event>, answer: Answer)
    requires JustInTime(log)
    ensures JustInTime(Heard(log, answer))
  {
    OtherEvent(log, CancelRequested);
  }

  lemma ForwardInTime(log: seq<Event>, answer: Answer, e: Event)
    requires JustInTime(log) && CancelRequested !in log
    ensures JustInTime(Heard(log, answer) + [e])
  {
    var heard := Heard(log, answer);
    var more := heard + [e];
    HeardInTime(log, answer);
    forall i | 0 <= i < |more| && Forward(more[i]) && CancelRequested in more[..i]
      ensures more[i - 1] == CancelRequested && CancelRequested !in more[..i - 1]
    {
      if i == |heard| {
        assert more[..i] == heard && more[..i - 1] == heard[..|heard| - 1];
        assert answer.requested ==> heard[..|heard| - 1] == log;
      }
    }
  }

  /** A call that stays prompt whether it raises or not. */
  lemma GoStaysPrompt(x: Attempt, call: Call, raised: Raised, next: Attempt)
    requires JustInTime(x.log) && (raised == NoError ==> Prompt(next))
    ensures Prompt(Go(x, call, raised, next))
  {
    hide JustInTime;
    GoLeads(x, call, raised, next);
    OtherEvent(x.log, CallRaised(call, raised));
  }

  lemma EntryStepIsPrompt(plan: seq<PlanEntry>, x: Attempt, answer: Answer)
    requires Sane(plan, x) && x.point.InEntry() && Prompt(x)
    ensures Prompt(EntryStep(plan, x, answer))
  {
    hide AccountOf, Heard, Go, JustInTime;
    HeardInTime(x.log, answer);
    var h := x.(log := Heard(x.log, answer));
    var check, raised, name := CheckResult(h.log, answer), answer.raised, plan[x.k].name;
    match x.point {
      case Enter => GoStaysPrompt(h, CheckCall, check, h.(point := if plan[x.k].skip then Skip else Configure));
      case Skip =>
        ForwardInTime(x.log, answer, StageSkipped(name));
        GoStaysPrompt(h, SkipCall, raised, ToEntry(plan, h.(log := h.log + [StageSkipped(name)], skipped := h.skipped + [name]), x.k + 1));
      case Configure => GoStaysPrompt(h, OutsideCall, raised, h.(point := ResolveInput));
      case ResolveInput =>
        var called := h.(log := h.log + [InputResolved(name, x.completed)]);
        OtherEvent(h.log, InputResolved(name, x.completed));
        GoStaysPrompt(called, ResolverCall, raised, called.(point := Identify));
      case Identify => GoStaysPrompt(h, OutsideCall, raised, h.(point := StartStage));
      case StartStage =>
        OtherEvent(h.log, StageStarted(name));
        GoStaysPrompt(h, StartCall, raised, h.(point := Execute, log := h.log + [StageStarted(name)]));
      case Execute => GoStaysPrompt(h, OutsideCall, raised, h.(point := Recheck, output := answer.output));
      case Recheck => GoStaysPrompt(h, CheckCall, check, h.(point := CompleteStage));
      case CompleteStage =>
        ForwardInTime(x.log, answer, StageCompleted(name, x.output));
        GoStaysPrompt(h, CompleteCall, raised, ToEntry(plan, Completed(h, name), x.k + 1));
    }
  }

  lemma FrameStepIsPrompt(assembled: Option<seq<PlanEntry>>, x: Attempt, answer: Answer)
    requires Sane(PlanOf(assembled), x) && x.point.InBody() && !x.point.InEntry() && Prompt(x)
    ensures Prompt(FrameStep(assembled, x, answer))
  {
    hide AccountOf, Heard, Go, JustInTime;
    HeardInTime(x.log, answer);
    var h := x.(log := Heard(x.log, answer));
    var check, raised := CheckResult(h.log, answer), answer.raised;
    match x.point {
      case Begin => GoStaysPrompt(h, CheckCall, check, h.(point := Assemble));
      case Assemble =>
        GoStaysPrompt(h, OutsideCall, if assembled.None? && raised == NoError then OtherError else raised, ToEntry(PlanOf(assembled), h, 0));
      case FinalCheck => GoStaysPrompt(h, CheckCall, check, h.(point := CompleteRun));
      case CompleteRun =>
        ForwardInTime(x.log, answer, RunCompleted);
        GoStaysPrompt(h, CompleteRunCall, raised, h.(log := h.log + [RunCompleted], point := Ended(Succeeded(x.succeeded, x.skipped))));
    }
  }

  lemma HandlerStepIsPrompt(plan: seq<PlanEntry>, x: Attempt, answer: Answer)
    requires Sane(plan, x) && !x.point.InBody() && !x.point.Ended? && Prompt(x)
    ensures Prompt(HandlerStep(plan, x, answer))
  {
    hide AccountOf, Heard, Go, JustInTime;
    HeardInTime(x.log, answer);
    var h := x.(log := Heard(x.log, answer));
    var check, raised := CheckResult(h.log, answer), answer.raised;
    match x.point {
      case HandlerCheck => GoStaysPrompt(h, CheckCall, check, h.(point := if x.active.Some? then FailStage else FailRun));
      case FailStage =>
        OtherEvent(h.log, StageFailed(x.active.value));
        GoStaysPrompt(h, FailStageCall, raised, h.(log := Failing(h.log, x.active.value), point := FailRun));
      case FailRun =>
        OtherEvent(h.log, RunFailed(x.active));
        var outcome := if answer.retryAfter.Some? then RetryScheduled(answer.retryAfter.value) else ExecutionFailed(x.active);
        GoStaysPrompt(h, FailRunCall, raised, h.(log := h.log + [RunFailed(x.active)], point := Ended(outcome)));
      case CancelStage =>
        OtherEvent(h.log, StageCancelled(x.active.value));
        GoStaysPrompt(h, CancelStageCall, raised, h.(log := Cancelling(h.log, x.active.value), point := CancelRun));
      case CancelRun =>
        OtherEvent(h.log, RunCancelled(x.active));
        GoStaysPrompt(h, CancelRunCall, raised, h.(log := h.log + [RunCancelled(x.active)], point := Ended(Cancelled(x.succeeded, x.skipped))));
    }
  }

  lemma {:induction false} FinishIsPrompt(assembled: Option<seq<PlanEntry>>, x: Attempt, script: seq<Answer>)
    requires Sane(PlanOf(assembled), x) && Prompt(x)
    ensures JustInTime(Finish(assembled, x, script).log)
    decreases x.point.InBody(), |PlanOf(assembled)| - x.k, x.point.Rank()
  {
    hide EntryStep, FrameStep, HandlerStep, JustInTime;
    if !x.point.Ended? {
      StepGoesOn(assembled, x, First(script));
      if x.point.InEntry() {
        EntryStepIsPrompt(PlanOf(assembled), x, First(script));
      } else if x.point.InBody() {
        FrameStepIsPrompt(assembled, x, First(script));
      } else {
        HandlerStepIsPrompt(PlanOf(assembled), x, First(script));
      }
      FinishIsPrompt(assembled, Step(assembled, x, First(script)), Rest(script));
    }
  }

  /** In every run: no stage is completed or skipped, and the run is not completed, after a request that was there before the call. */
  lemma RequestsAreNoticed(assembled: Option<seq<PlanEntry>>, script: seq<Answer>)
    ensures JustInTime(Finish(assembled, START, script).log)
  {
    FinishIsPrompt(assembled, START, script);
  }

  // ----- How a run that raised names its stage, and what it returns -----

  /** The last call of the body. */
  function LastOfBody(calls: seq<Made>): Option<Attempt> {
    if calls == [] then None
    else if calls[|calls| - 1].at.point.InBody() then Some(calls[|calls| - 1].at)
    else LastOfBody(calls[..|calls| - 1])
  }

  /** The stage the body was at, if it was at one. */
  function StageAt(plan: seq<PlanEntry>, at: Option<Attempt>): Option<string> {
    if at.Some? && at.value.point.InEntry() && at.value.k < |plan| then Some(plan[at.value.k].name) else None
  }

  /** What `run` does with the stage in hand, in one step: it keeps it when something raises, and closes the run with it. */
  ghost predicate Hands(plan: seq<PlanEntry>, x: Attempt, answer: Answer, y: Attempt) {
    && (y.point.InBody() ==> y.active == StageAt(plan, Some(y)))
    && (!y.point.InBody() && !(y.point.Ended? && y.point.outcome.Succeeded?) ==> y.active == x.active)
    && (forall e | e in y.log && (e.RunFailed? || e.RunCancelled?) :: e in x.log || (!x.point.InBody() && e.active == x.active))
    && (y.point.Ended? && y.point.outcome.Failed() ==> x.point.FailRun? && FailsAs(y.point.outcome, answer, x.active))
    && (y.point.Ended? ==> EndsAs(y.log, y.point.outcome, x.active))
  }

  /** The last thing in the log of a run that did not escape is its end, of the kind of its outcome and at its stage. */
  predicate EndsAs(log: seq<Event>, outcome: Outcome, stage: Option<string>) {
    && (outcome.Succeeded? ==> log != [] && log[|log| - 1] == RunCompleted)
    && (outcome.Failed() ==> log != [] && log[|log| - 1] == RunFailed(stage))
    && (outcome.Cancelled? ==> log != [] && log[|log| - 1] == RunCancelled(stage))
  }

  /** What `run` raises after `fail_run`: the delay it was answered with, or the failure at the stage. */
  predicate FailsAs(outcome: Outcome, answer: Answer, stage: Option<string>) {
    match answer.retryAfter
    case Some(delay) => outcome == RetryScheduled(delay)
    case None => outcome == ExecutionFailed(stage)
  }

  lemma EntryStepHands(plan: seq<PlanEntry>, x: Attempt, answer: Answer)
    requires Sane(plan, x) && x.point.InEntry() && x.active == StageAt(plan, Some(x))
    ensures Hands(plan, x, answer, EntryStep(plan, x, answer))
  {
    hide AccountOf, CheckResult, Heard, Go;
    HeardAdds(x.log, answer);
    var h := x.(log := Heard(x.log, answer));
    var check, raised, name := CheckResult(h.log, answer), answer.raised, plan[x.k].name;
    match x.point {
      case Enter => GoLeads(h, CheckCall, check, h.(point := if plan[x.k].skip then Skip else Configure));
      case Skip => GoLeads(h, SkipCall, raised, ToEntry(plan, h.(log := h.log + [StageSkipped(name)], skipped := h.skipped + [name]), x.k + 1));
      case Configure => GoLeads(h, OutsideCall, raised, h.(point := ResolveInput));
      case ResolveInput =>
        var called := h.(log := h.log + [InputResolved(name, x.completed)]);
        GoLeads(called, ResolverCall, raised, called.(point := Identify));
      case Identify => GoLeads(h, OutsideCall, raised, h.(point := StartStage));
      case StartStage => GoLeads(h, StartCall, raised, h.(point := Execute, log := h.log + [StageStarted(name)]));
      case Execute => GoLeads(h, OutsideCall, raised, h.(point := Recheck, output := answer.output));
      case Recheck => GoLeads(h, CheckCall, check, h.(point := CompleteStage));
      case CompleteStage => GoLeads(h, CompleteCall, raised, ToEntry(plan, Completed(h, name), x.k + 1));
    }
  }

  lemma FrameStepHands(assembled: Option<seq<PlanEntry>>, x: Attempt, answer: Answer)
    requires Sane(PlanOf(assembled), x) && x.point.InBody() && !x.point.InEntry() && x.active == None
    ensures Hands(PlanOf(assembled), x, answer, FrameStep(assembled, x, answer))
  {
    hide AccountOf, CheckResult, Heard, Go;
    HeardAdds(x.log, answer);
    var h := x.(log := Heard(x.log, answer));
    var check, raised := CheckResult(h.log, answer), answer.raised;
    match x.point {
      case Begin => GoLeads(h, CheckCall, check, h.(point := Assemble));
      case Assemble =>
        GoLeads(h, OutsideCall, if assembled.None? && raised == NoError then OtherError else raised, ToEntry(PlanOf(assembled), h, 0));
      case FinalCheck => GoLeads(h, CheckCall, check, h.(point := CompleteRun));
      case CompleteRun =>
        GoLeads(h, CompleteRunCall, raised, h.(log := h.log + [RunCompleted], point := Ended(Succeeded(x.succeeded, x.skipped))));
    }
  }

  lemma HandlerStepHands(plan: seq<PlanEntry>, x: Attempt, answer: Answer)
    requires Sane(plan, x) && !x.point.InBody() && !x.point.Ended?
    ensures Hands(plan, x, answer, HandlerStep(plan, x, answer))
  {
    hide AccountOf, CheckResult, Heard, Go;
    HeardAdds(x.log, answer);
    var h := x.(log := Heard(x.log, answer));
    var check, raised := CheckResult(h.log, answer), answer.raised;
    match x.point {
      case HandlerCheck => GoLeads(h, CheckCall, check, h.(point := if x.active.Some? then FailStage else FailRun));
      case FailStage => GoLeads(h, FailStageCall, raised, h.(log := Failing(h.log, x.active.value), point := FailRun));
      case FailRun =>
        var outcome := if answer.retryAfter.Some? then RetryScheduled(answer.retryAfter.value) else ExecutionFailed(x.active);
        GoLeads(h, FailRunCall, raised, h.(log := h.log + [RunFailed(x.active)], point := Ended(outcome)));
      case CancelStage => GoLeads(h, CancelStageCall, raised, h.(log := Cancelling(h.log, x.active.value), point := CancelRun));
      case CancelRun =>
        GoLeads(h, CancelRunCall, raised, h.(log := h.log + [RunCancelled(x.active)], point := Ended(Cancelled(x.succeeded, x.skipped))));
    }
  }

  /** The stage in hand is where the body was last, and so is what the store and the caller are told. */
  ghost predicate NamesItsStage(plan: seq<PlanEntry>, x: Attempt, calls: seq<Made>) {
    var stage := StageAt(plan, LastOfBody(calls));
    && (x.point.InBody() ==> x.active == StageAt(plan, Some(x)))
    && (!x.point.InBody() && !(x.point.Ended? && x.point.outcome.Succeeded?) ==> x.active == stage)
    && (forall e | e in x.log && (e.RunFailed? || e.RunCancelled?) :: !x.point.InBody() && e.active == stage)
    && (x.point.Ended? && x.point.outcome.Failed() ==>
          calls != [] && calls[|calls| - 1].at.point.FailRun? && FailsAs(x.point.outcome, calls[|calls| - 1].answer, stage))
    && (x.point.Ended? ==> EndsAs(x.log, x.point.outcome, stage))
  }

  lemma StepNamesItsStage(assembled: Option<seq<PlanEntry>>, x: Attempt, answer: Answer, calls: seq<Made>)
    requires Sane(PlanOf(assembled), x) && !x.point.Ended? && NamesItsStage(PlanOf(assembled), x, calls)
    ensures NamesItsStage(PlanOf(assembled), Step(assembled, x, answer), calls + [Made(x, answer)])
  {
    hide EntryStep, FrameStep, HandlerStep;
    var more := calls + [Made(x, answer)];
    assert more[..|more| - 1] == calls;
    StepGoesOn(assembled, x, answer);
    if x.point.InEntry() {
      EntryStepHands(PlanOf(assembled), x, answer);
    } else if x.point.InBody() {
      FrameStepHands(assembled, x, answer);
    } else {
      HandlerStepHands(PlanOf(assembled), x, answer);
    }
  }

  lemma {:induction false} FinishNamesItsStage(assembled: Option<seq<PlanEntry>>, x: Attempt, script: seq<Answer>, calls: seq<Made>)
    requires Sane(PlanOf(assembled), x) && NamesItsStage(PlanOf(assembled), x, calls)
    ensures NamesItsStage(PlanOf(assembled), Finish(assembled, x, script), calls + Trace(assembled, x, script))
    decreases x.point.InBody(), |PlanOf(assembled)| - x.k, x.point.Rank()
  {
    hide Step, NamesItsStage;
    if x.point.Ended? {
      assert calls + [] == calls;
    } else {
      var made := Made(x, First(script));
      var y := Step(assembled, x, First(script));
      StepGoesOn(assembled, x, First(script));
      StepNamesItsStage(assembled, x, First(script), calls);
      FinishNamesItsStage(assembled, y, Rest(script), calls + [made]);
      assert calls + ([made] + Trace(assembled, y, Rest(script))) == calls + [made] + Trace(assembled, y, Rest(script));
    }
  }

  /**
   * A run that is failed or cancelled is so with the name of the stage the body was at, if it was at one; and a failed run
   * raises the delay that `fail_run` returned, or the failure at that stage when it returned none.
   */
  lemma RunsNameTheirStage(assembled: Option<seq<PlanEntry>>, script: seq<Answer>)
    ensures NamesItsStage(PlanOf(assembled), Finish(assembled, START, script), Trace(assembled, START, script))
  {
    FinishNamesItsStage(assembled, START, script, []);
    assert [] + Trace(assembled, START, script) == Trace(assembled, START, script);
  }
  /**
   * What log and outcome have to do with the answers the calls got: outputs come from executions, requests are noticed by
   * the next check, and a failed run says where it failed and when to retry.
   */
  ghost predicate AnswersFit(plan: seq<PlanEntry>, outcome: Outcome, log: seq<Event>, calls: seq<Made>) {
    && OutputsAreProduced(log, calls) && JustInTime(log)
    && (forall e | e in log && (e.RunFailed? || e.RunCancelled?) :: e.active == StageAt(plan, LastOfBody(calls)))
    && EndsAs(log, outcome, StageAt(plan, LastOfBody(calls)))
    && (outcome.Failed() ==> calls != [])
    && (outcome.Failed() ==> FailsAs(outcome, calls[|calls| - 1].answer, StageAt(plan, LastOfBody(calls))))
  }

  lemma EveryRunFitsItsAnswers(assembled: Option<seq<PlanEntry>>, script: seq<Answer>)
    ensures var r := Finish(assembled, START, script);
      AnswersFit(PlanOf(assembled), r.point.outcome, r.log, Trace(assembled, START, script))
  {
    hide OutputsAreProduced, JustInTime, Trace, Finish, LastOfBody;
    OutputsComeFromExecutions(assembled, script);
    RequestsAreNoticed(assembled, script);
    RunsNameTheirStage(assembled, script);
  }
}
