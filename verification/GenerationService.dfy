/** `run` as it is written, call by call against a state store: it refines the machine. */
module GenerationService {
  import opened Prelude
  import opened Generation
  import opened GenerationRuns
  import GenerationTraces

  /** The two accounts agree on which stages are open, which have failed and how often each has ended. */
  predicate SameStages(a: Account, b: Account) { a.open == b.open && a.failed == b.failed && a.endings == b.endings }

  lemma HearingChangesNoStage(log: seq<Event>, answer: Answer)
    ensures SameStages(AccountOf(Heard(log, answer)), AccountOf(log))
  {
    AccountAppends(log, CancelRequested);
  }

  lemma RaisingChangesNoStage(log: seq<Event>, call: Call, error: Raised)
    ensures SameStages(AccountOf(log + [CallRaised(call, error)]), AccountOf(log))
  {
    AccountAppends(log, CallRaised(call, error));
  }

  /** A failure changes a running stage only. */
  ghost predicate StageFails(before: Account, stage: string, after: Account) {
    if stage !in before.open then SameStages(after, before)
    else after.open == before.open - {stage} && after.failed == before.failed + {stage} && after.endings == before.endings + multiset{stage}
  }

  /** A cancellation changes a running or a failed stage only. */
  ghost predicate StageIsCancelled(before: Account, stage: string, after: Account) {
    if stage !in before.open && stage !in before.failed then SameStages(after, before)
    else after.open == before.open - {stage} && after.failed == before.failed && after.endings == before.endings + multiset{stage}
  }

  lemma FailingChanges(log: seq<Event>, stage: string)
    ensures StageFails(AccountOf(log), stage, AccountOf(Failing(log, stage)))
  {
    AccountAppends(log, StageFailed(stage));
  }

  lemma CancellingChanges(log: seq<Event>, stage: string)
    ensures StageIsCancelled(AccountOf(log), stage, AccountOf(Cancelling(log, stage)))
  {
    AccountAppends(log, StageCancelled(stage));
  }

  /** The state store, as far as `run` calls it: a log, and the script that answers. */
  class StateStore {
    var log: seq<Event>
    var script: seq<Answer>

    constructor (script: seq<Answer>)
      ensures log == [] && this.script == script
    {
      log, this.script := [], script;
    }

    /** The next answer; a cancellation request may come with it. */
    method Hear() returns (answer: Answer)
      modifies this
      ensures answer == First(old(script)) && script == Rest(old(script)) && log == Heard(old(log), answer)
    {
      answer := First(script);
      script := Rest(script);
      log := Heard(log, answer);
    }

    method CheckCancelled() returns (raised: Raised)
      modifies this
      ensures script == Rest(old(script))
      ensures var heard := Heard(old(log), First(old(script)));
        && raised == CheckResult(heard, First(old(script)))
        && log == if raised == NoError then heard else heard + [CallRaised(CheckCall, raised)]
      ensures raised == CancelledError ==> CancelRequested in log
      ensures raised == NoError ==> CancelRequested !in log
    {
      var answer := Hear();
      raised := CheckResult(log, answer);
      if raised != NoError {
        log := log + [CallRaised(CheckCall, raised)];
      }
    }

    /** A call that appends its event, or raises. */
    method Perform(call: Call, e: Event) returns (raised: Raised, answer: Answer)
      modifies this
      ensures script == Rest(old(script)) && answer == First(old(script)) && raised == answer.raised
      ensures log == if raised == NoError then Heard(old(log), answer) + [e] else Heard(old(log), answer) + [CallRaised(call, raised)]
    {
      answer := Hear();
      raised := answer.raised;
      log := if raised == NoError then log + [e] else log + [CallRaised(call, raised)];
    }

    method CallFailStage(stage: string) returns (raised: Raised)
      modifies this
      ensures script == Rest(old(script)) && raised == First(old(script)).raised
      ensures var heard := Heard(old(log), First(old(script)));
        log == if raised == NoError then Failing(heard, stage) else heard + [CallRaised(FailStageCall, raised)]
      ensures if raised == NoError then StageFails(old(AccountOf(log)), stage, AccountOf(log)) else SameStages(AccountOf(log), old(AccountOf(log)))
    {
      hide AccountOf;
      HearingChangesNoStage(log, First(script));
      var answer := Hear();
      FailingChanges(log, stage);
      RaisingChangesNoStage(log, FailStageCall, answer.raised);
      raised := answer.raised;
      log := if raised == NoError then Failing(log, stage) else log + [CallRaised(FailStageCall, raised)];
    }

    method CallCancelStage(stage: string) returns (raised: Raised)
      modifies this
      ensures script == Rest(old(script)) && raised == First(old(script)).raised
      ensures var heard := Heard(old(log), First(old(script)));
        log == if raised == NoError then Cancelling(heard, stage) else heard + [CallRaised(CancelStageCall, raised)]
      ensures if raised == NoError then StageIsCancelled(old(AccountOf(log)), stage, AccountOf(log)) else SameStages(AccountOf(log), old(AccountOf(log)))
    {
      hide AccountOf;
      HearingChangesNoStage(log, First(script));
      var answer := Hear();
      CancellingChanges(log, stage);
      RaisingChangesNoStage(log, CancelStageCall, answer.raised);
      raised := answer.raised;
      log := if raised == NoError then Cancelling(log, stage) else log + [CallRaised(CancelStageCall, raised)];
    }

    /** The input resolver is called with `outputs`, and may raise. */
    method CallResolver(stage: string, outputs: map<string, Output>) returns (raised: Raised)
      modifies this
      ensures script == Rest(old(script)) && raised == First(old(script)).raised
      ensures var called := Heard(old(log), First(old(script))) + [InputResolved(stage, outputs)];
        log == if raised == NoError then called else called + [CallRaised(ResolverCall, raised)]
    {
      var answer := Hear();
      raised := answer.raised;
      log := log + [InputResolved(stage, outputs)];
      if raised != NoError {
        log := log + [CallRaised(ResolverCall, raised)];
      }
    }

    /** Code outside the store; when it is `broken` it raises whatever the script says. */
    method Outside(broken: bool) returns (raised: Raised, output: Output)
      modifies this
      ensures script == Rest(old(script))
      ensures var answer := First(old(script));
        && raised == (if broken && answer.raised == NoError then OtherError else answer.raised) && output == answer.output
        && log == if raised == NoError then Heard(old(log), answer) else Heard(old(log), answer) + [CallRaised(OutsideCall, raised)]
    {
      var answer := Hear();
      raised := if broken && answer.raised == NoError then OtherError else answer.raised;
      output := answer.output;
      if raised != NoError {
        log := log + [CallRaised(OutsideCall, raised)];
      }
    }
  }

  /** The local variables of `run` with the log of its store. */
  ghost function Now(store: StateStore, x: Attempt): Attempt
    reads store
  {
    x.(log := store.log)
  }

  /** Where the rest of the run leads from here. */
  ghost function End(store: StateStore, assembled: Option<seq<PlanEntry>>, x: Attempt): Attempt
    requires Sane(PlanOf(assembled), x)
    reads store
  {
    Finish(assembled, Now(store, x), store.script)
  }

  /** One check of the body, at a point of the machine. */
  method CheckAt(store: StateStore, ghost assembled: Option<seq<PlanEntry>>, ghost x: Attempt) returns (raised: Raised)
    requires Sane(PlanOf(assembled), x)
    requires x.point.Begin? || x.point.Enter? || x.point.Recheck? || x.point.FinalCheck?
    modifies store
    ensures old(End(store, assembled, x)) ==
      End(store, assembled, if raised == NoError then x.(point := Passed(PlanOf(assembled), x)) else Caught(x, raised))
  {
    hide AccountOf, CheckResult, Heard, Finish;
    FinishUnfolds(assembled, Now(store, x), store.script);
    raised := store.CheckCancelled();
  }

  /** Where a check leads when it passes. */
  function Passed(plan: seq<PlanEntry>, x: Attempt): Point
    requires Sane(plan, x)
  {
    match x.point
    case Begin => Assemble
    case Enter => if plan[x.k].skip then Skip else Configure
    case Recheck => CompleteStage
    case _ => CompleteRun
  }

  /** Code outside the store, at a point of the machine. */
  method OutsideAt(store: StateStore, ghost assembled: Option<seq<PlanEntry>>, ghost x: Attempt, broken: bool)
    returns (raised: Raised, output: Output)
    requires Sane(PlanOf(assembled), x)
    requires if x.point.Assemble? then broken == assembled.None?
             else !broken && (x.point.Configure? || x.point.Identify?)
    modifies store
    ensures x.point.Assemble? && raised == NoError ==> assembled.Some?
    ensures old(End(store, assembled, x)) ==
      End(store, assembled,
          if raised != NoError then Caught(x, raised)
          else match x.point
               case Assemble => ToEntry(PlanOf(assembled), x, 0)
               case Configure => x.(point := ResolveInput)
               case _ => x.(point := StartStage))
  {
    hide AccountOf, Heard, Finish;
    FinishUnfolds(assembled, Now(store, x), store.script);
    raised, output := store.Outside(broken);
  }

  /** The execution of a stage, with the output it is answered with. */
  method ExecuteAt(store: StateStore, ghost plan: seq<PlanEntry>, ghost x: Attempt) returns (raised: Raised, output: Output)
    requires Sane(plan, x) && x.point.Execute?
    modifies store
    ensures output == First(old(store.script)).output
    ensures old(End(store, Some(plan), x)) ==
      End(store, Some(plan), if raised == NoError then x.(point := Recheck, output := output) else Caught(x, raised))
  {
    hide AccountOf, Heard, Finish;
    FinishUnfolds(Some(plan), Now(store, x), store.script);
    raised, output := store.Outside(false);
  }

  /** An entry that the plan skips: the check, and the skip. */
  method SkipEntry(store: StateStore, plan: seq<PlanEntry>, k: nat, ghost x: Attempt) returns (raised: Raised)
    requires k < |plan| && plan[k].skip && x.k == k && x.point.Enter? && x.active == Some(plan[k].name)
    modifies store
    ensures var assembled := Some(plan);
      old(End(store, assembled, x)) ==
      End(store, assembled, if raised == NoError then ToEntry(plan, x.(skipped := x.skipped + [plan[k].name]), k + 1) else Caught(x, raised))
  {
    hide AccountOf, Heard, Finish;
    raised := CheckAt(store, Some(plan), x);
    if raised == NoError {
      FinishUnfolds(Some(plan), Now(store, x.(point := Skip)), store.script);
      var answer;
      raised, answer := store.Perform(SkipCall, StageSkipped(plan[k].name));
    }
  }

  /** Up to the start of a stage: the cancellation check, its configuration, its resolved input, its identity. */
  method PrepareEntry(store: StateStore, plan: seq<PlanEntry>, k: nat, completed: map<string, Output>, ghost x: Attempt)
    returns (raised: Raised)
    requires k < |plan| && !plan[k].skip && x.k == k && x.completed == completed && x.point.Enter? && x.active == Some(plan[k].name)
    modifies store
    ensures var assembled := Some(plan);
      old(End(store, assembled, x)) == End(store, assembled, if raised == NoError then x.(point := StartStage) else Caught(x, raised))
  {
    hide AccountOf, Heard, Finish;
    raised := CheckAt(store, Some(plan), x);
    if raised != NoError {
      return;
    }
    var output;
    raised, output := OutsideAt(store, Some(plan), x.(point := Configure), false);
    if raised != NoError {
      return;
    }
    FinishUnfolds(Some(plan), Now(store, x.(point := ResolveInput)), store.script);
    raised := store.CallResolver(plan[k].name, completed);
    if raised != NoError {
      return;
    }
    raised, output := OutsideAt(store, Some(plan), x.(point := Identify), false);
  }

  method StartAt(store: StateStore, plan: seq<PlanEntry>, k: nat, ghost x: Attempt) returns (raised: Raised)
    requires k < |plan| && x.k == k && x.point.StartStage?
    modifies store
    ensures store.script == Rest(old(store.script))
    ensures old(End(store, Some(plan), x)) == End(store, Some(plan), if raised == NoError then x.(point := Execute) else Caught(x, raised))
  {
    hide AccountOf, Heard, Finish;
    FinishUnfolds(Some(plan), Now(store, x), store.script);
    var answer;
    raised, answer := store.Perform(StartCall, StageStarted(plan[k].name));
  }

  method CompleteAt(store: StateStore, plan: seq<PlanEntry>, k: nat, output: Output, ghost x: Attempt) returns (raised: Raised)
    requires k < |plan| && x.k == k && x.point.CompleteStage? && x.output == output
    modifies store
    ensures old(End(store, Some(plan), x)) ==
      End(store, Some(plan), if raised == NoError then ToEntry(plan, Completed(x, plan[k].name), k + 1) else Caught(x, raised))
  {
    hide AccountOf, Heard, Finish;
    FinishUnfolds(Some(plan), Now(store, x), store.script);
    var answer;
    raised, answer := store.Perform(CompleteCall, StageCompleted(plan[k].name, output));
  }

  /**
   * From the start of a stage to its completion, with the output that its execution is answered with. `last` is the output
   * of the stage executed before, if any.
   */
  method RunStage(store: StateStore, plan: seq<PlanEntry>, k: nat, last: Output, ghost x: Attempt) returns (raised: Raised, output: Output)
    requires k < |plan| && x.k == k && x.point.StartStage? && x.active == Some(plan[k].name) && x.output == last
    modifies store
    ensures var assembled := Some(plan);
      old(End(store, assembled, x)) ==
      End(store, assembled, if raised == NoError then ToEntry(plan, Completed(x.(output := output), plan[k].name), k + 1)
                            else Caught(x.(output := output), raised))
    ensures raised == NoError ==> output == First(Rest(old(store.script))).output
  {
    hide AccountOf, Finish, Step;
    output := last;
    raised := StartAt(store, plan, k, x);
    if raised != NoError {
      return;
    }
    var result;
    raised, result := ExecuteAt(store, plan, x.(point := Execute));
    if raised != NoError {
      return;
    }
    output := result;
    raised := CheckAt(store, Some(plan), x.(point := Recheck, output := output));
    if raised == NoError {
      raised := CompleteAt(store, plan, k, output, x.(point := CompleteStage, output := output));
    }
  }

  /** What `run` has in its local variables. */
  datatype Locals = Locals(active: Option<string>, completed: map<string, Output>, output: Output, succeeded: seq<string>, skipped: seq<string>)

  ghost function At(point: Point, k: nat, v: Locals): Attempt {
    Attempt(point, k, v.active, v.completed, v.output, v.succeeded, v.skipped, [])
  }

  /** One turn of the loop over the plan. */
  method RunEntry(store: StateStore, plan: seq<PlanEntry>, k: nat, v: Locals) returns (raised: Raised, w: Locals)
    requires k < |plan| && v.active == Some(plan[k].name)
    modifies store
    ensures raised == NoError ==> w.active.None?
    ensures raised != NoError ==> w.active == v.active
    ensures old(End(store, Some(plan), At(Enter, k, v))) ==
      End(store, Some(plan), if raised == NoError then ToEntry(plan, At(Enter, k + 1, w), k + 1) else Caught(At(Enter, k, w), raised))
  {
    hide AccountOf, Heard, Finish;
    w := v;
    if plan[k].skip {
      raised := SkipEntry(store, plan, k, At(Enter, k, v));
      if raised == NoError {
        w := v.(skipped := v.skipped + [plan[k].name], active := None);
      }
      return;
    }
    raised := PrepareEntry(store, plan, k, v.completed, At(Enter, k, v));
    if raised != NoError {
      return;
    }
    var output;
    raised, output := RunStage(store, plan, k, v.output, At(StartStage, k, v));
    w := v.(output := output);
    if raised == NoError {
      w := Locals(None, v.completed[plan[k].name := output], output, v.succeeded + [plan[k].name], v.skipped);
    }
  }

  method CompleteRunAt(store: StateStore, ghost assembled: Option<seq<PlanEntry>>, ghost k: nat, v: Locals) returns (raised: Raised)
    requires k <= |PlanOf(assembled)|
    modifies store
    ensures old(End(store, assembled, At(CompleteRun, k, v))) ==
      End(store, assembled, if raised == NoError then At(Ended(Succeeded(v.succeeded, v.skipped)), k, v) else Caught(At(CompleteRun, k, v), raised))
  {
    hide AccountOf, Heard, Finish;
    FinishUnfolds(assembled, Now(store, At(CompleteRun, k, v)), store.script);
    var answer;
    raised, answer := store.Perform(CompleteRunCall, RunCompleted);
  }

  /** The loop over the plan, up to its end or to the first raise. */
  method RunEntries(store: StateStore, plan: seq<PlanEntry>, start: Locals) returns (raised: Raised, v: Locals, ghost k: nat)
    requires start.active.None?
    modifies store
    ensures k <= |plan| && (raised == NoError ==> v.active.None? && k == |plan|)
    ensures old(End(store, Some(plan), ToEntry(plan, At(Enter, 0, start), 0))) ==
      End(store, Some(plan), if raised == NoError then At(FinalCheck, k, v) else Caught(At(Enter, k, v), raised))
  {
    hide AccountOf, Finish, Step;
    raised, v, k := NoError, start, 0;
    for i := 0 to |plan|
      invariant k == i && v.active.None? && raised == NoError
      invariant old(End(store, Some(plan), ToEntry(plan, At(Enter, 0, start), 0))) == End(store, Some(plan), ToEntry(plan, At(Enter, i, v), i))
    {
      v := v.(active := Some(plan[i].name));
      raised, v := RunEntry(store, plan, i, v);
      if raised != NoError {
        return;
      }
      k := i + 1;
    }
  }

  /** Up to the plan: the first check, and assembly. */
  method AssembleRun(store: StateStore, assembled: Option<seq<PlanEntry>>, v: Locals) returns (raised: Raised)
    requires v.active.None?
    modifies store
    ensures raised == NoError ==> assembled.Some?
    ensures old(End(store, assembled, At(Begin, 0, v))) ==
      End(store, assembled, if raised == NoError then ToEntry(PlanOf(assembled), At(Enter, 0, v), 0) else Caught(At(Begin, 0, v), raised))
  {
    hide AccountOf, Finish, Step;
    raised := CheckAt(store, assembled, At(Begin, 0, v));
    if raised != NoError {
      return;
    }
    var output;
    raised, output := OutsideAt(store, assembled, At(Assemble, 0, v), assembled.None?);
  }

  /** After the loop: the last check, and the completion of the run. */
  method FinishRun(store: StateStore, ghost assembled: Option<seq<PlanEntry>>, ghost k: nat, v: Locals) returns (raised: Raised)
    requires k <= |PlanOf(assembled)|
    modifies store
    ensures old(End(store, assembled, At(FinalCheck, k, v))) ==
      End(store, assembled, if raised == NoError then At(Ended(Succeeded(v.succeeded, v.skipped)), k, v) else Caught(At(FinalCheck, k, v), raised))
  {
    hide AccountOf, Finish, Step;
    raised := CheckAt(store, assembled, At(FinalCheck, k, v));
    if raised == NoError {
      raised := CompleteRunAt(store, assembled, k, v);
    }
  }

  /** The body of `run`, up to its end or to the first raise. */
  method Body(store: StateStore, assembled: Option<seq<PlanEntry>>) returns (raised: Raised, v: Locals, ghost k: nat)
    requires store.log == []
    modifies store
    ensures k <= |PlanOf(assembled)|
    ensures old(Finish(assembled, START, store.script)) ==
      End(store, assembled, if raised == NoError then At(Ended(Succeeded(v.succeeded, v.skipped)), k, v) else Caught(At(CompleteRun, k, v), raised))
  {
    hide AccountOf, Finish, Step, ToEntry;
    v := Locals(None, map[], "", [], []);
    k := 0;
    assert Now(store, At(Begin, 0, v)) == START;
    raised := AssembleRun(store, assembled, v);
    if raised != NoError {
      return;
    }
    raised, v, k := RunEntries(store, assembled.value, v);
    if raised != NoError {
      return;
    }
    raised := FinishRun(store, assembled, k, v);
  }

  // The closing calls. Each leads to the next point, or where its error is caught.

  method CheckInHandler(store: StateStore, ghost assembled: Option<seq<PlanEntry>>, ghost k: nat, v: Locals) returns (raised: Raised)
    requires k <= |PlanOf(assembled)|
    modifies store
    ensures old(End(store, assembled, At(HandlerCheck, k, v))) ==
      End(store, assembled, if raised != NoError then Caught(At(HandlerCheck, k, v), raised)
                            else At(if v.active.Some? then FailStage else FailRun, k, v))
  {
    hide AccountOf, Heard, Finish, EntryStep, FrameStep, Failing, Cancelling, ToEntry;
    FinishUnfolds(assembled, Now(store, At(HandlerCheck, k, v)), store.script);
    raised := store.CheckCancelled();
  }

  method FailStageAt(store: StateStore, ghost assembled: Option<seq<PlanEntry>>, ghost k: nat, v: Locals) returns (raised: Raised)
    requires k <= |PlanOf(assembled)| && v.active.Some?
    modifies store
    ensures old(End(store, assembled, At(FailStage, k, v))) ==
      End(store, assembled, if raised == NoError then At(FailRun, k, v) else Caught(At(FailStage, k, v), raised))
  {
    hide AccountOf, Heard, Finish, Failing, Cancelling, EntryStep, FrameStep, ToEntry;
    FinishUnfolds(assembled, Now(store, At(FailStage, k, v)), store.script);
    raised := store.CallFailStage(v.active.value);
  }

  method FailRunAt(store: StateStore, ghost assembled: Option<seq<PlanEntry>>, ghost k: nat, v: Locals)
    returns (raised: Raised, outcome: Outcome)
    requires k <= |PlanOf(assembled)|
    modifies store
    ensures outcome.Failed()
    ensures old(End(store, assembled, At(FailRun, k, v))) ==
      End(store, assembled, if raised == NoError then At(Ended(outcome), k, v) else Caught(At(FailRun, k, v), raised))
  {
    hide AccountOf, Heard, Finish, EntryStep, FrameStep;
    FinishUnfolds(assembled, Now(store, At(FailRun, k, v)), store.script);
    var answer;
    raised, answer := store.Perform(FailRunCall, RunFailed(v.active));
    outcome := if answer.retryAfter.Some? then RetryScheduled(answer.retryAfter.value) else ExecutionFailed(v.active);
  }

  method CancelStageAt(store: StateStore, ghost assembled: Option<seq<PlanEntry>>, ghost k: nat, v: Locals) returns (raised: Raised)
    requires k <= |PlanOf(assembled)| && v.active.Some?
    modifies store
    ensures old(End(store, assembled, At(CancelStage, k, v))) ==
      End(store, assembled, if raised == NoError then At(CancelRun, k, v) else At(Ended(Escaped), k, v))
  {
    hide AccountOf, Heard, Finish, Cancelling, EntryStep, FrameStep;
    FinishUnfolds(assembled, Now(store, At(CancelStage, k, v)), store.script);
    raised := store.CallCancelStage(v.active.value);
  }

  /** `_cancelled_result`; an error raised in it escapes. */
  method CancelledResult(store: StateStore, ghost assembled: Option<seq<PlanEntry>>, ghost k: nat, v: Locals) returns (outcome: Outcome)
    requires k <= |PlanOf(assembled)|
    modifies store
    ensures !outcome.NotStarted()
    ensures old(End(store, assembled, Closing(At(CancelRun, k, v)))) == Now(store, At(Ended(outcome), k, v))
  {
    hide AccountOf, Heard, Finish, EntryStep, FrameStep, Cancelling;
    outcome := Escaped;
    var raised := NoError;
    if v.active.Some? {
      raised := CancelStageAt(store, assembled, k, v);
    }
    if raised == NoError {
      FinishUnfolds(assembled, Now(store, At(CancelRun, k, v)), store.script);
      var answer;
      raised, answer := store.Perform(CancelRunCall, RunCancelled(v.active));
      if raised == NoError {
        outcome := Cancelled(v.succeeded, v.skipped);
      }
    }
    EndedFinishes(assembled, Now(store, At(Ended(outcome), k, v)), store.script);
  }

  /** The handler of errors: it closes stage and run as failed. When the cancellation is raised, `raised` says so. */
  method HandleError(store: StateStore, ghost assembled: Option<seq<PlanEntry>>, ghost k: nat, v: Locals)
    returns (outcome: Outcome, raised: Raised)
    requires k <= |PlanOf(assembled)|
    modifies store
    ensures !outcome.NotStarted() && (raised == NoError || raised == CancelledError)
    ensures raised == NoError ==> old(End(store, assembled, At(HandlerCheck, k, v))) == Now(store, At(Ended(outcome), k, v))
    ensures raised == CancelledError ==>
      old(End(store, assembled, At(HandlerCheck, k, v))) == End(store, assembled, Closing(At(HandlerCheck, k, v)))
  {
    hide AccountOf, Finish, Step;
    outcome := Escaped;
    raised := CheckInHandler(store, assembled, k, v);
    if raised == NoError && v.active.Some? {
      raised := FailStageAt(store, assembled, k, v);
    }
    if raised == NoError {
      raised, outcome := FailRunAt(store, assembled, k, v);
      outcome := if raised == NoError then outcome else Escaped;
    }
    if raised != CancelledError {
      raised := NoError;
      EndedFinishes(assembled, Now(store, At(Ended(outcome), k, v)), store.script);
    }
  }

  datatype Claim = Started | SucceededBefore | RunningElsewhere | CancelledBefore | ClaimRaises

  /**
   * `run` as written is the machine: its outcome and its log are the machine's, for every script. `assembled`
   * is the plan, when assembly yields one. So a claimed run keeps the promises of every run of the machine.
   */
  method Run(store: StateStore, claim: Claim, assembled: Option<seq<PlanEntry>>) returns (outcome: Outcome, ghost k: nat)
    requires store.log == [] && DistinctNames(PlanOf(assembled))
    modifies store
    ensures outcome.NotStarted() <==> claim != Started
    ensures claim == SucceededBefore ==> outcome == AlreadySucceeded
    ensures claim == RunningElsewhere ==> outcome == InProgress
    ensures claim == CancelledBefore ==> outcome == AlreadyCancelled
    ensures claim == ClaimRaises ==> outcome == ClaimFailed
    ensures claim != Started ==> store.log == []
    ensures claim == Started ==>
      && Ended(outcome) == old(Finish(assembled, START, store.script)).point
      && store.log == old(Finish(assembled, START, store.script)).log
    ensures claim == Started ==>
      var a := AccountOf(store.log);
      && Promises(a, PlanOf(assembled), k) && OutcomeFits(outcome, a.raises)
      && (outcome.Succeeded? ==> k == |PlanOf(assembled)|)
    ensures claim == Started ==>
      GenerationTraces.AnswersFit(PlanOf(assembled), outcome, store.log, GenerationTraces.Trace(assembled, START, old(store.script)))
  {
    hide AccountOf, Heard, Failing, Cancelling, Finish, DistinctNames, Promises, OutcomeFits, GenerationTraces.AnswersFit;
    k := 0;
    match claim {
      case SucceededBefore => return AlreadySucceeded, 0;
      case RunningElsewhere => return InProgress, 0;
      case CancelledBefore => return AlreadyCancelled, 0;
      case ClaimRaises => return ClaimFailed, 0;
      case Started =>
    }
    EveryRunKeepsItsPromises(assembled, store.script);
    GenerationTraces.EveryRunFitsItsAnswers(assembled, store.script);
    var raised, v;
    raised, v, k := Body(store, assembled);
    if raised == NoError {
      outcome := Succeeded(v.succeeded, v.skipped);
      EndedFinishes(assembled, Now(store, At(Ended(outcome), k, v)), store.script);
      return;
    }
    if raised == OtherError {
      outcome, raised := HandleError(store, assembled, k, v);
      if raised == NoError {
        return;
      }
    }
    outcome := CancelledResult(store, assembled, k, v);
  }
}
