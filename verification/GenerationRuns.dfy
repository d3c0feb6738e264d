/**
 * What every step of an attempt keeps, and so what every run promises: order, data flow, bounded
 * cancellation, and how stages and the run end.
 */
module GenerationRuns {
  import opened Prelude
  import opened Generation

  function Names(plan: seq<PlanEntry>): seq<string> {
    seq(|plan|, i requires 0 <= i < |plan| => plan[i].name)
  }

  /** The names of the entries that are skipped, or of those that are not, in plan order. */
  function Chosen(plan: seq<PlanEntry>, skip: bool): seq<string> {
    if plan == [] then []
    else
      var last := plan[|plan| - 1];
      Chosen(plan[..|plan| - 1], skip) + (if last.skip == skip then [last.name] else [])
  }

  lemma NextName(plan: seq<PlanEntry>, k: nat)
    requires k < |plan|
    ensures Names(plan[..k + 1]) == Names(plan[..k]) + [plan[k].name]
    ensures multiset(Names(plan[..k + 1])) == multiset(Names(plan[..k])) + multiset{plan[k].name}
    ensures Chosen(plan[..k + 1], true) == Chosen(plan[..k], true) + (if plan[k].skip then [plan[k].name] else [])
    ensures Chosen(plan[..k + 1], false) == Chosen(plan[..k], false) + (if plan[k].skip then [] else [plan[k].name])
  {
    assert plan[..k + 1][..k] == plan[..k];
  }

  /** The entries behind have ended in order, and nothing else but what was done for the entry at hand. */
  ghost predicate Underway(a: Account, plan: seq<PlanEntry>, k: nat, active: Option<string>) {
    && k <= |plan| && a.progress == Names(plan[..k])
    && a.faithful && a.mostOpen <= 1 && a.late <= 1 && (a.late == 1 ==> a.cancelRequested)
    && a.runEndings == 0 && a.quietAfterEnd
    && (active.None? ==> a.open == {} && a.started <= multiset(Names(plan[..k])))
    && (active.Some? ==> k < |plan| && active.value == plan[k].name && a.open <= {active.value}
                         && a.started <= multiset(Names(plan[..k])) + multiset{active.value}
                         && (active.value in a.open ==> active.value in a.started))
  }

  /** Neither `fail_stage` nor `cancel_stage` has changed a stage. */
  ghost predicate Unclosed(a: Account, plan: seq<PlanEntry>, k: nat)
    requires k <= |plan|
  {
    && a.failed == {} && a.endings == multiset(Names(plan[..k]))
    && (a.open == {} ==> a.started <= multiset(Names(plan[..k])))
  }

  /** `fail_stage` has closed the stage at hand, once. */
  ghost predicate FailedOnce(a: Account, plan: seq<PlanEntry>, k: nat, active: Option<string>)
    requires k <= |plan|
  {
    && active.Some? && a.failed == {active.value} && a.open == {} && active.value in a.started
    && a.endings == multiset(Names(plan[..k])) + multiset{active.value}
  }

  ghost predicate ListsFit(plan: seq<PlanEntry>, x: Attempt)
    requires x.k <= |plan|
  {
    x.succeeded == Chosen(plan[..x.k], false) && x.skipped == Chosen(plan[..x.k], true)
  }

  ghost predicate BodyInv(plan: seq<PlanEntry>, x: Attempt, a: Account) {
    && Underway(a, plan, x.k, x.active) && Unclosed(a, plan, x.k) && a.raises == []
    && ListsFit(plan, x) && x.completed == a.outputs
    && (if x.point.InEntry() then x.active.Some? else x.active.None? && (x.point.FinalCheck? || x.point.CompleteRun? ==> x.k == |plan|))
    && (if x.point.Execute? || x.point.Recheck? || x.point.CompleteStage? then a.open == {x.active.value}
        else a.open == {} && a.started <= multiset(Names(plan[..x.k])))
    && (x.point.InEntry() && !x.point.Enter? && !x.point.Execute? && !x.point.Recheck? ==> a.late == 0)
    && (x.point.InEntry() && !x.point.Enter? ==> (x.point.Skip? <==> plan[x.k].skip))
  }

  /** The body has raised, and nothing but the body. */
  predicate BodyRaised(raises: seq<Raise>, error: Raised) {
    |raises| == 1 && raises[0].error == error && raises[0].call.OfBody()
  }

  /** The error that `run` is handling is not a cancellation. */
  predicate OneError(raises: seq<Raise>) { BodyRaised(raises, OtherError) }

  /** A closing call has raised the cancellation while `run` was handling an error. */
  predicate CancelledBy(raises: seq<Raise>, call: Call) {
    |raises| == 2 && OneError(raises[..1]) && raises[1] == Raise(call, CancelledError)
  }

  predicate FailRunCancelled(raises: seq<Raise>) { CancelledBy(raises, FailRunCall) }

  /** The raises after which `_cancelled_result` runs. */
  predicate CancellationRaised(raises: seq<Raise>) {
    || BodyRaised(raises, CancelledError)
    || CancelledBy(raises, CheckCall) || CancelledBy(raises, FailStageCall) || CancelledBy(raises, FailRunCall)
  }

  ghost predicate HandlerInv(plan: seq<PlanEntry>, x: Attempt, a: Account) {
    && Underway(a, plan, x.k, x.active) && ListsFit(plan, x)
    && match x.point
       case HandlerCheck => Unclosed(a, plan, x.k) && OneError(a.raises)
       case FailStage => Unclosed(a, plan, x.k) && OneError(a.raises) && a.late == 0
       case FailRun => a.open == {} && OneError(a.raises) && (Unclosed(a, plan, x.k) || FailedOnce(a, plan, x.k, x.active))
       case CancelStage =>
         (Unclosed(a, plan, x.k) && CancellationRaised(a.raises)) || (FailedOnce(a, plan, x.k, x.active) && FailRunCancelled(a.raises))
       case CancelRun =>
         && a.open == {} && CancellationRaised(a.raises)
         && (Unclosed(a, plan, x.k) || CancelledOnce(a, plan, x.k, x.active)
             || (ClosedTwice(a, plan, x.k, x.active) && FailRunCancelled(a.raises)))
       case _ => false
  }

  ghost predicate CancelledOnce(a: Account, plan: seq<PlanEntry>, k: nat, active: Option<string>)
    requires k <= |plan|
  {
    && active.Some? && a.failed == {} && active.value in a.started
    && a.endings == multiset(Names(plan[..k])) + multiset{active.value}
  }

  ghost predicate ClosedTwice(a: Account, plan: seq<PlanEntry>, k: nat, active: Option<string>)
    requires k <= |plan|
  {
    && active.Some? && a.failed == {active.value} && active.value in a.started
    && a.endings == multiset(Names(plan[..k])) + multiset{active.value, active.value}
  }

  /** A closing call raised an error that `run` does not handle: anything but the cancellation, or anything from `cancel_*`. */
  predicate Escapes(raises: seq<Raise>) {
    exists i | 1 <= i < |raises| :: raises[i].call.Cancels() || raises[i].error == OtherError
  }

  /** How `run` ends is a matter of which calls raised what. */
  predicate OutcomeFits(outcome: Outcome, raises: seq<Raise>) {
    && !outcome.NotStarted()
    && (outcome.Succeeded? <==> raises == [])
    && (outcome.Failed() <==> OneError(raises))
    && (outcome.Cancelled? <==> CancellationRaised(raises))
    && (outcome.Escaped? <==> Escapes(raises))
    && (forall i | 1 <= i < |raises| :: raises[i].call.Closes())
  }

  /** A stage ends twice exactly when it failed, `fail_run` raised the cancellation, and `cancel_stage` did not raise. */
  ghost predicate EndsTwiceExactlyWhen(a: Account, s: string) {
    a.endings[s] == 2 <==>
    s in a.failed && Raise(FailRunCall, CancelledError) in a.raises && forall r | r in a.raises :: r.call != CancelStageCall
  }

  /** Everything the log of a whole run promises. */
  ghost predicate Promises(a: Account, plan: seq<PlanEntry>, k: nat) {
    && k <= |plan| && a.progress == Names(plan[..k])
    && a.faithful && a.mostOpen <= 1 && a.late <= 1 && a.quietAfterEnd
    && a.runEndings == (if Escapes(a.raises) then 0 else 1)
    && (!Escapes(a.raises) ==> a.open == {})
    && StagesEnded(a, plan, k)
  }

  /** Each stage was started at most once and has ended as it may; only the entry at hand can have failed. */
  ghost predicate StagesEnded(a: Account, plan: seq<PlanEntry>, k: nat)
    requires k <= |plan|
  {
    && (forall s :: a.started[s] <= 1 && a.endings[s] <= 2 && EndsTwiceExactlyWhen(a, s))
    && (forall s | s in a.failed :: k < |plan| && s == plan[k].name && s in a.started)
    && (forall s | a.endings[s] > 0 :: s in a.progress || s in a.started)
    && (forall s | s in a.started && s !in a.open :: a.endings[s] > 0)
  }

  ghost predicate EndInv(plan: seq<PlanEntry>, x: Attempt, a: Account) {
    && x.point.Ended? && Promises(a, plan, x.k) && OutcomeFits(x.point.outcome, a.raises)
    && (x.point.outcome.Succeeded? ==> x.k == |plan|)
    && (x.point.outcome.Succeeded? || x.point.outcome.Cancelled? ==>
          x.point.outcome.succeeded == Chosen(plan[..x.k], false) && x.point.outcome.skipped == Chosen(plan[..x.k], true))
    && (x.point.outcome.ExecutionFailed? && x.point.outcome.active.Some? ==>
          x.k < |plan| && x.point.outcome.active.value == plan[x.k].name)
  }

  ghost predicate Inv(plan: seq<PlanEntry>, x: Attempt, a: Account) {
    && Sane(plan, x)
    && (if x.point.InBody() then BodyInv(plan, x, a) else if x.point.Ended? then EndInv(plan, x, a) else HandlerInv(plan, x, a))
  }

  /** Hearing of a cancellation request changes nothing else. */
  lemma BodyHears(plan: seq<PlanEntry>, x: Attempt, a: Account, log: seq<Event>)
    requires Sane(plan, x) && BodyInv(plan, x, a)
    ensures Sane(plan, x.(log := log)) && BodyInv(plan, x.(log := log), Record(a, CancelRequested))
  {
    hide Chosen, Names;
  }

  lemma HandlerHears(plan: seq<PlanEntry>, x: Attempt, a: Account, log: seq<Event>)
    requires Sane(plan, x) && HandlerInv(plan, x, a)
    ensures Sane(plan, x.(log := log)) && HandlerInv(plan, x.(log := log), Record(a, CancelRequested))
  {
    hide Chosen, Names;
  }

  lemma BodyWaits(plan: seq<PlanEntry>, x: Attempt, answer: Answer)
    requires Sane(plan, x) && BodyInv(plan, x, AccountOf(x.log))
    ensures var h := x.(log := Heard(x.log, answer)); Sane(plan, h) && BodyInv(plan, h, AccountOf(h.log))
  {
    hide BodyInv, Record, Sane;
    BodyHears(plan, x, AccountOf(x.log), x.log + [CancelRequested]);
    AccountAppends(x.log, CancelRequested);
    assert x.(log := x.log) == x;
  }

  lemma HandlerWaits(plan: seq<PlanEntry>, x: Attempt, answer: Answer)
    requires Sane(plan, x) && HandlerInv(plan, x, AccountOf(x.log))
    ensures var h := x.(log := Heard(x.log, answer)); Sane(plan, h) && HandlerInv(plan, h, AccountOf(h.log))
  {
    hide HandlerInv, Record, Sane;
    HandlerHears(plan, x, AccountOf(x.log), x.log + [CancelRequested]);
    AccountAppends(x.log, CancelRequested);
    assert x.(log := x.log) == x;
  }

  lemma DistinctMultiset(plan: seq<PlanEntry>, k: nat)
    requires DistinctNames(plan) && k <= |plan|
    ensures forall s :: multiset(Names(plan[..k]))[s] <= 1
    ensures k < |plan| ==> plan[k].name !in multiset(Names(plan[..k]))
    ensures forall s | s in multiset(Names(plan[..k])) :: s in Names(plan[..k])
  {
    if k > 0 {
      DistinctMultiset(plan, k - 1);
      NextName(plan, k - 1);
      if k < |plan| {
        var names := Names(plan[..k]);
        assert forall i | 0 <= i < k :: names[i] == plan[i].name;
        assert plan[k].name !in names;
      }
    }
  }

  lemma ToEntryKeeps(plan: seq<PlanEntry>, x: Attempt, a: Account, k: nat)
    requires k <= |plan| && Underway(a, plan, k, None) && Unclosed(a, plan, k) && a.raises == []
    requires x.completed == a.outputs && x.succeeded == Chosen(plan[..k], false) && x.skipped == Chosen(plan[..k], true)
    ensures Inv(plan, ToEntry(plan, x, k), a)
  {
    hide Chosen, Names;
  }

  /** A call of the body raises: it is caught with nothing closed yet. */
  lemma BodyRaises(plan: seq<PlanEntry>, x: Attempt, a: Account, call: Call, error: Raised)
    requires x.point.InBody() && Sane(plan, x) && BodyInv(plan, x, a) && error != NoError && call.OfBody()
    ensures Inv(plan, Caught(x.(log := x.log + [CallRaised(call, error)]), error), Record(a, CallRaised(call, error)))
  {
    hide Chosen, Names;
  }

  lemma GoKeeps(plan: seq<PlanEntry>, x: Attempt, call: Call, raised: Raised, next: Attempt)
    requires x.point.InBody() && Sane(plan, x) && BodyInv(plan, x, AccountOf(x.log)) && call.OfBody()
    requires raised == NoError ==> Inv(plan, next, AccountOf(next.log))
    ensures var y := Go(x, call, raised, next); Inv(plan, y, AccountOf(y.log))
  {
    hide BodyInv, HandlerInv, EndInv, Sane, Record;
    if raised != NoError {
      BodyRaises(plan, x, AccountOf(x.log), call, raised);
      AccountAppends(x.log, CallRaised(call, raised));
    }
  }

  /** A cancellation check that passes: nothing has happened since any request. */
  lemma CheckPasses(log: seq<Event>, answer: Answer)
    requires CheckResult(log, answer) == NoError
    ensures !AccountOf(log).cancelRequested
  {
    RequestedWhenLogged(log);
  }

  /** The end of an entry, by its skip or by its completion. */
  lemma EntryEnds(a: Account, plan: seq<PlanEntry>, k: nat, e: Event)
    requires k < |plan| && Underway(a, plan, k, Some(plan[k].name)) && Unclosed(a, plan, k) && a.raises == [] && a.late == 0
    requires (e.StageSkipped? && a.open == {}) || e.StageCompleted?
    requires e.stage == plan[k].name
    ensures var b := Record(a, e);
      && Underway(b, plan, k + 1, None) && Unclosed(b, plan, k + 1) && b.raises == []
      && b.outputs == if e.StageSkipped? then a.outputs else a.outputs[e.stage := e.output]
  {
    hide Chosen, Names;
    NextName(plan, k);
  }

  lemma SkipKeeps(plan: seq<PlanEntry>, x: Attempt)
    requires x.point.Skip? && plan != [] && x.k < |plan| && plan[x.k].skip && BodyInv(plan, x, AccountOf(x.log))
    ensures var name := plan[x.k].name;
            var y := ToEntry(plan, x.(log := x.log + [StageSkipped(name)], skipped := x.skipped + [name]), x.k + 1);
      Inv(plan, y, AccountOf(y.log))
  {
    hide Chosen, Names, Inv, Underway, Unclosed, Record, AccountOf, ToEntry;
    var name := plan[x.k].name;
    NextName(plan, x.k);
    AtHandInEntry(plan, x, AccountOf(x.log));
    EntryEnds(AccountOf(x.log), plan, x.k, StageSkipped(name));
    AccountAppends(x.log, StageSkipped(name));
    ToEntryKeeps(plan, x.(log := x.log + [StageSkipped(name)], skipped := x.skipped + [name]), AccountOf(x.log + [StageSkipped(name)]), x.k + 1);
    ToEntryKeepsLog(plan, x.(log := x.log + [StageSkipped(name)], skipped := x.skipped + [name]), x.k + 1);
  }

  lemma ToEntryKeepsLog(plan: seq<PlanEntry>, x: Attempt, k: nat)
    ensures ToEntry(plan, x, k).log == x.log
  {
  }

  lemma AtHandInEntry(plan: seq<PlanEntry>, x: Attempt, a: Account)
    requires x.point.InEntry() && x.k < |plan| && BodyInv(plan, x, a)
    ensures x.active == Some(plan[x.k].name)
  {
  }

  lemma CompletionKeeps(plan: seq<PlanEntry>, x: Attempt)
    requires x.point.CompleteStage? && x.k < |plan| && !plan[x.k].skip && BodyInv(plan, x, AccountOf(x.log))
    ensures var y := ToEntry(plan, Completed(x, plan[x.k].name), x.k + 1); Inv(plan, y, AccountOf(y.log))
  {
    hide Chosen, Names, Inv, Underway, Unclosed, Record, AccountOf, ToEntry;
    var name := plan[x.k].name;
    NextName(plan, x.k);
    AtHandInEntry(plan, x, AccountOf(x.log));
    EntryEnds(AccountOf(x.log), plan, x.k, StageCompleted(name, x.output));
    AccountAppends(x.log, StageCompleted(name, x.output));
    ToEntryKeeps(plan, Completed(x, name), AccountOf(x.log + [StageCompleted(name, x.output)]), x.k + 1);
    ToEntryKeepsLog(plan, Completed(x, name), x.k + 1);
  }

  lemma StartOpens(a: Account, plan: seq<PlanEntry>, k: nat, stage: string)
    requires Underway(a, plan, k, Some(stage)) && Unclosed(a, plan, k) && a.late == 0 && a.open == {}
    requires a.started <= multiset(Names(plan[..k]))
    ensures var b := Record(a, StageStarted(stage));
      Underway(b, plan, k, Some(stage)) && Unclosed(b, plan, k) && b.open == {stage} && b.raises == a.raises && b.outputs == a.outputs
  {
    hide Names;
    assert a.open + {stage} == {stage} && |{stage}| == 1;
  }

  lemma StartKeeps(plan: seq<PlanEntry>, x: Attempt)
    requires x.point.StartStage? && x.k < |plan| && BodyInv(plan, x, AccountOf(x.log))
    ensures var y := x.(point := Execute, log := x.log + [StageStarted(plan[x.k].name)]);
      Inv(plan, y, AccountOf(y.log))
  {
    hide Chosen, Names, Underway, Unclosed, Record;
    AtHandInEntry(plan, x, AccountOf(x.log));
    StartOpens(AccountOf(x.log), plan, x.k, plan[x.k].name);
    AccountAppends(x.log, StageStarted(plan[x.k].name));
  }

  lemma ResolvingGoesOn(a: Account, plan: seq<PlanEntry>, k: nat, active: Option<string>, e: Event)
    requires Underway(a, plan, k, active) && Unclosed(a, plan, k) && e.InputResolved? && e.outputs == a.outputs
    ensures var b := Record(a, e);
      && Underway(b, plan, k, active) && Unclosed(b, plan, k)
      && b.open == a.open && b.started == a.started && b.late == a.late && b.raises == a.raises && b.outputs == a.outputs
  {
    hide Names;
  }

  lemma ResolverKeeps(plan: seq<PlanEntry>, x: Attempt)
    requires x.point.ResolveInput? && x.k < |plan| && BodyInv(plan, x, AccountOf(x.log))
    ensures var y := x.(log := x.log + [InputResolved(plan[x.k].name, x.completed)]);
      Sane(plan, y) && BodyInv(plan, y, AccountOf(y.log)) && Inv(plan, y.(point := Identify), AccountOf(y.log))
  {
    hide Chosen, Names, Record, Underway, Unclosed;
    ResolvingGoesOn(AccountOf(x.log), plan, x.k, x.active, InputResolved(plan[x.k].name, x.completed));
    AccountAppends(x.log, InputResolved(plan[x.k].name, x.completed));
  }

  /** A body call without an event of its own. */
  predicate MovesOn(point: Point, next: Point) {
    || (point.Begin? && next.Assemble?)
    || (point.Configure? && next.ResolveInput?)
    || (point.Identify? && next.StartStage?)
    || (point.Execute? && next.Recheck?)
    || (point.Recheck? && next.CompleteStage?)
    || (point.FinalCheck? && next.CompleteRun?)
    || (point.Enter? && (next.Skip? || next.Configure?))
  }

  lemma MovingOnKeeps(plan: seq<PlanEntry>, x: Attempt, a: Account, next: Point, output: Output)
    requires Sane(plan, x) && x.point.InBody() && BodyInv(plan, x, a) && MovesOn(x.point, next)
    requires x.point.Enter? ==> (next.Skip? <==> plan[x.k].skip)
    requires x.point.Enter? || x.point.Recheck? ==> !a.cancelRequested
    ensures Inv(plan, x.(point := next, output := output), a)
  {
    hide Chosen, Names;
  }

  lemma EntryStepKeeps(plan: seq<PlanEntry>, x: Attempt, answer: Answer)
    requires Sane(plan, x) && x.point.InEntry() && BodyInv(plan, x, AccountOf(x.log))
    ensures var y := EntryStep(plan, x, answer); Inv(plan, y, AccountOf(y.log))
  {
    hide BodyInv, Inv, Record, AccountOf, CheckResult, Heard, ToEntry, Go, Completed;
    var h := x.(log := Heard(x.log, answer));
    var a, check, raised, name := AccountOf(h.log), CheckResult(h.log, answer), answer.raised, plan[x.k].name;
    BodyWaits(plan, x, answer);
    SkipIsPlanned(plan, h, a);
    match x.point {
      case Enter =>
        var next := if plan[x.k].skip then Skip else Configure;
        if check == NoError {
          CheckPasses(h.log, answer);
          MovingOnKeeps(plan, h, a, next, h.output);
          assert h.(point := next, output := h.output) == h.(point := next);
        }
        GoKeeps(plan, h, CheckCall, check, h.(point := next));
      case Skip =>
        SkipKeeps(plan, h);
        GoKeeps(plan, h, SkipCall, raised, ToEntry(plan, h.(log := h.log + [StageSkipped(name)], skipped := h.skipped + [name]), x.k + 1));
      case Configure =>
        MovingOnKeeps(plan, h, a, ResolveInput, h.output);
        assert h.(point := ResolveInput, output := h.output) == h.(point := ResolveInput);
        GoKeeps(plan, h, OutsideCall, raised, h.(point := ResolveInput));
      case ResolveInput =>
        ResolverKeeps(plan, h);
        var called := h.(log := h.log + [InputResolved(name, x.completed)]);
        GoKeeps(plan, called, ResolverCall, raised, called.(point := Identify));
      case Identify =>
        MovingOnKeeps(plan, h, a, StartStage, h.output);
        assert h.(point := StartStage, output := h.output) == h.(point := StartStage);
        GoKeeps(plan, h, OutsideCall, raised, h.(point := StartStage));
      case StartStage =>
        StartKeeps(plan, h);
        GoKeeps(plan, h, StartCall, raised, h.(point := Execute, log := h.log + [StageStarted(name)]));
      case Execute =>
        MovingOnKeeps(plan, h, a, Recheck, answer.output);
        GoKeeps(plan, h, OutsideCall, raised, h.(point := Recheck, output := answer.output));
      case Recheck =>
        if check == NoError {
          CheckPasses(h.log, answer);
          MovingOnKeeps(plan, h, a, CompleteStage, h.output);
          assert h.(point := CompleteStage, output := h.output) == h.(point := CompleteStage);
        }
        GoKeeps(plan, h, CheckCall, check, h.(point := CompleteStage));
      case CompleteStage =>
        CompletionKeeps(plan, h);
        GoKeeps(plan, h, CompleteCall, raised, ToEntry(plan, Completed(h, name), x.k + 1));
    }
  }

  lemma SkipIsPlanned(plan: seq<PlanEntry>, x: Attempt, a: Account)
    requires Sane(plan, x) && x.point.InEntry() && BodyInv(plan, x, a)
    ensures !x.point.Enter? ==> (x.point.Skip? <==> plan[x.k].skip)
  {
  }

  lemma AssemblyKeeps(plan: seq<PlanEntry>, x: Attempt)
    requires x.point.Assemble? && Sane(plan, x) && BodyInv(plan, x, AccountOf(x.log))
    ensures var y := ToEntry(plan, x, 0); Inv(plan, y, AccountOf(y.log))
  {
    hide Chosen, Names;
    ToEntryKeeps(plan, x, AccountOf(x.log), 0);
  }

  lemma EndingsFit(a: Account, plan: seq<PlanEntry>, k: nat, active: Option<string>)
    requires DistinctNames(plan) && k <= |plan| && (active.Some? ==> k < |plan| && active.value == plan[k].name)
    requires a.progress == Names(plan[..k])
    requires a.started <= multiset(Names(plan[..k])) + (if active.Some? then multiset{active.value} else multiset{})
    requires a.open <= if active.Some? then {active.value} else {}
    requires
      || Unclosed(a, plan, k)
      || CancelledOnce(a, plan, k, active)
      || (FailedOnce(a, plan, k, active)
          && (Raise(FailRunCall, CancelledError) in a.raises ==> exists r :: r in a.raises && r.call == CancelStageCall))
      || (ClosedTwice(a, plan, k, active)
          && Raise(FailRunCall, CancelledError) in a.raises && forall r | r in a.raises :: r.call != CancelStageCall)
    ensures StagesEnded(a, plan, k)
  {
    hide Names, DistinctNames;
    DistinctMultiset(plan, k);
    var before := multiset(Names(plan[..k]));
    forall s
      ensures a.started[s] <= 1 && a.endings[s] <= 2 && EndsTwiceExactlyWhen(a, s)
    {
      assert before[s] <= 1;
      if active.Some? && s == active.value {
        assert before[s] == 0;
      }
    }
  }

  lemma CompletionEnds(plan: seq<PlanEntry>, x: Attempt, a: Account)
    requires DistinctNames(plan) && x.point.CompleteRun? && Sane(plan, x) && BodyInv(plan, x, a)
    ensures EndInv(plan, x.(log := x.log + [RunCompleted], point := Ended(Succeeded(x.succeeded, x.skipped))), Record(a, RunCompleted))
  {
    hide Chosen, Names, DistinctNames, EndsTwiceExactlyWhen;
    EndingsFit(Record(a, RunCompleted), plan, x.k, x.active);
  }

  lemma FrameStepKeeps(assembled: Option<seq<PlanEntry>>, x: Attempt, answer: Answer)
    requires var plan := PlanOf(assembled);
      DistinctNames(plan) && Sane(plan, x) && x.point.InBody() && !x.point.InEntry() && BodyInv(plan, x, AccountOf(x.log))
    ensures var y := FrameStep(assembled, x, answer); Inv(PlanOf(assembled), y, AccountOf(y.log))
  {
    hide BodyInv, EndInv, Record, AccountOf, CheckResult, Heard, ToEntry, Go;
    var plan := PlanOf(assembled);
    var h := x.(log := Heard(x.log, answer));
    var a, check, raised := AccountOf(h.log), CheckResult(h.log, answer), answer.raised;
    BodyWaits(plan, x, answer);
    match x.point {
      case Begin =>
        MovingOnKeeps(plan, h, a, Assemble, h.output);
        assert h.(point := Assemble, output := h.output) == h.(point := Assemble);
        GoKeeps(plan, h, CheckCall, check, h.(point := Assemble));
      case Assemble =>
        AssemblyKeeps(plan, h);
        GoKeeps(plan, h, OutsideCall, if assembled.None? && raised == NoError then OtherError else raised, ToEntry(plan, h, 0));
      case FinalCheck =>
        MovingOnKeeps(plan, h, a, CompleteRun, h.output);
        assert h.(point := CompleteRun, output := h.output) == h.(point := CompleteRun);
        GoKeeps(plan, h, CheckCall, check, h.(point := CompleteRun));
      case CompleteRun =>
        CompletionEnds(plan, h, a);
        AccountAppends(h.log, RunCompleted);
        GoKeeps(plan, h, CompleteRunCall, raised, h.(log := h.log + [RunCompleted], point := Ended(Succeeded(x.succeeded, x.skipped))));
    }
  }

  /** The closing call made at a point. */
  function CallAt(point: Point): Call
    requires !point.InBody() && !point.Ended?
  {
    match point
    case HandlerCheck => CheckCall
    case FailStage => FailStageCall
    case FailRun => FailRunCall
    case CancelStage => CancelStageCall
    case CancelRun => CancelRunCall
  }

  /** The raises so far are those of a run that is still being closed. */
  predicate StillClosing(raises: seq<Raise>) { OneError(raises) || CancellationRaised(raises) }

  lemma StillClosingHasNotEscaped(raises: seq<Raise>)
    requires StillClosing(raises)
    ensures raises != [] && !Escapes(raises) && !(OneError(raises) && CancellationRaised(raises))
    ensures forall i | 1 <= i < |raises| :: raises[i].call.Closes()
    ensures forall r | r in raises :: r.call != CancelStageCall
    ensures Raise(FailRunCall, CancelledError) in raises ==> FailRunCancelled(raises)
    ensures OneError(raises) ==> Raise(FailRunCall, CancelledError) !in raises
  {
  }

  /** The last raise is one that `run` does not handle. */
  lemma RaisedLast(before: seq<Raise>, last: Raise)
    requires StillClosing(before) && last.call.Closes() && last.error != NoError
    requires last.call.Fails() ==> last.error == OtherError
    ensures var raises := before + [last];
      && Escapes(raises) && !StillClosing(raises) && raises != []
      && (forall i | 1 <= i < |raises| :: raises[i].call.Closes())
      && (forall r :: r in raises <==> r in before || r == last)
  {
    var raises := before + [last];
    assert raises[|before|] == last;
    StillClosingHasNotEscaped(before);
    if |raises| == 2 {
      assert raises[..1] == before;
    }
  }

  /** A call raises the cancellation while `run` was handling an error. */
  lemma CancellationFollows(before: seq<Raise>, call: Call)
    requires OneError(before)
    ensures CancelledBy(before + [Raise(call, CancelledError)], call)
  {
    assert (before + [Raise(call, CancelledError)])[..1] == before;
  }

  /** What a log promises once it says how the stages have ended, and that the run has or has not. */
  lemma PromisesFollow(a: Account, plan: seq<PlanEntry>, k: nat, active: Option<string>, e: Event)
    requires Underway(a, plan, k, active)
    requires e.RunFailed? || e.RunCancelled? || e.CallRaised?
    requires Escapes(Record(a, e).raises) <==> e.CallRaised?
    requires e.CallRaised? || a.open == {}
    requires StagesEnded(Record(a, e), plan, k)
    ensures Promises(Record(a, e), plan, k)
  {
    hide Names, EndsTwiceExactlyWhen, Escapes;
  }

  /** The last event of a run says nothing about its stages. */
  lemma StagesCarryOver(a: Account, plan: seq<PlanEntry>, k: nat, active: Option<string>, e: Event)
    requires k <= |plan| && (e.RunFailed? || e.RunCancelled? || e.CallRaised?)
    ensures var b := Record(a, e);
      && (Unclosed(a, plan, k) ==> Unclosed(b, plan, k))
      && (CancelledOnce(a, plan, k, active) ==> CancelledOnce(b, plan, k, active))
      && (FailedOnce(a, plan, k, active) ==> FailedOnce(b, plan, k, active))
      && (ClosedTwice(a, plan, k, active) ==> ClosedTwice(b, plan, k, active))
      && b.progress == a.progress && b.started == a.started && b.open == a.open
      && b.raises == (if e.CallRaised? then a.raises + [Raise(e.call, e.error)] else a.raises)
  {
    hide Names;
  }

  lemma RaisingGoesOn(a: Account, plan: seq<PlanEntry>, k: nat, active: Option<string>, e: Event)
    requires Underway(a, plan, k, active) && e.CallRaised?
    ensures Underway(Record(a, e), plan, k, active)
  {
    hide Names;
  }

  lemma NothingOpen(a: Account, plan: seq<PlanEntry>, k: nat, active: Option<string>)
    requires Underway(a, plan, k, active)
    ensures active.None? ==> a.open == {}
    ensures active.None? ==> !FailedOnce(a, plan, k, active)
  {
  }

  lemma HandlerCancelled(plan: seq<PlanEntry>, x: Attempt, a: Account)
    requires Sane(plan, x) && x.point.Fails() && HandlerInv(plan, x, a)
    ensures var y := x.(log := x.log + [CallRaised(CallAt(x.point), CancelledError)]);
      Inv(plan, Closing(y), Record(a, CallRaised(CallAt(x.point), CancelledError)))
  {
    hide Chosen, Names, Record, Underway, Unclosed, FailedOnce, OneError, CancelledBy;
    var e := CallRaised(CallAt(x.point), CancelledError);
    UnderwayEntry(a, plan, x.k, x.active);
    RaisingGoesOn(a, plan, x.k, x.active, e);
    StagesCarryOver(a, plan, x.k, x.active, e);
    CancellationFollows(a.raises, CallAt(x.point));
    NothingOpen(a, plan, x.k, x.active);
  }

  lemma FailedOnceUnlessUnclosed(plan: seq<PlanEntry>, x: Attempt, a: Account)
    requires Sane(plan, x) && !x.point.InBody() && !x.point.Ended? && HandlerInv(plan, x, a)
    ensures StillClosing(a.raises) && Underway(a, plan, x.k, x.active) && ListsFit(plan, x)
    ensures x.point.Fails() ==> OneError(a.raises)
    ensures x.point.FailRun? || x.point.CancelRun? ==> a.open == {}
    ensures
      || Unclosed(a, plan, x.k)
      || (CancelledOnce(a, plan, x.k, x.active) && x.point.CancelRun?)
      || (FailedOnce(a, plan, x.k, x.active) && (x.point.FailRun? || x.point.CancelStage?))
      || (ClosedTwice(a, plan, x.k, x.active) && x.point.CancelRun? && FailRunCancelled(a.raises))
  {
    hide Chosen, Names, Underway;
  }

  /** A closing call raises, and `run` does not handle it. */
  lemma HandlerEscapes(plan: seq<PlanEntry>, x: Attempt, a: Account, error: Raised)
    requires DistinctNames(plan) && Sane(plan, x) && !x.point.InBody() && !x.point.Ended? && HandlerInv(plan, x, a)
    requires error != NoError && (x.point.Fails() ==> error == OtherError)
    ensures var e := CallRaised(CallAt(x.point), error);
      Inv(plan, x.(log := x.log + [e], point := Ended(Escaped)), Record(a, e))
  {
    hide Chosen, Names, DistinctNames, EndsTwiceExactlyWhen, Escapes, StillClosing, HandlerInv, OneError, CancellationRaised, FailRunCancelled,
         Underway, Promises, StagesEnded, Record, Unclosed, CancelledOnce, FailedOnce, ClosedTwice;
    var call := CallAt(x.point);
    var e := CallRaised(call, error);
    var b := Record(a, e);
    FailedOnceUnlessUnclosed(plan, x, a);
    EscapingRaises(a.raises, Raise(call, error));
    StillClosingHasNotEscaped(a.raises);
    FinalRaise(a.raises, call, error);
    UnderwayEntry(a, plan, x.k, x.active);
    StagesCarryOver(a, plan, x.k, x.active, e);
    if FailRunCancelled(a.raises) {
      FailRunCancelledIn(a.raises);
    }
    if x.point.CancelStage? {
      assert Raise(call, error) in b.raises;
    }
    EndingsFit(b, plan, x.k, x.active);
    PromisesFollow(a, plan, x.k, x.active, e);
  }

  lemma EscapingRaises(before: seq<Raise>, last: Raise)
    requires StillClosing(before) && last.call.Closes() && last.error != NoError
    requires last.call.Fails() ==> last.error == OtherError
    ensures Escapes(before + [last]) && OutcomeFits(Escaped, before + [last])
  {
    RaisedLast(before, last);
  }

  lemma FinalRaise(before: seq<Raise>, call: Call, error: Raised)
    requires StillClosing(before) && call.Closes() && error != NoError && (call.Fails() ==> error == OtherError)
    requires call == FailRunCall ==> OneError(before)
    ensures var raises := before + [Raise(call, error)];
      && (forall r :: r in raises <==> r in before || r == Raise(call, error))
      && (Raise(FailRunCall, CancelledError) in raises <==> Raise(FailRunCall, CancelledError) in before)
  {
  }

  lemma FailRunCancelledIn(raises: seq<Raise>)
    requires FailRunCancelled(raises)
    ensures Raise(FailRunCall, CancelledError) in raises
  {
  }

  lemma UnderwayEntry(a: Account, plan: seq<PlanEntry>, k: nat, active: Option<string>)
    requires Underway(a, plan, k, active)
    ensures k <= |plan| && (active.Some? ==> k < |plan| && active.value == plan[k].name) && a.progress == Names(plan[..k])
    ensures a.started <= multiset(Names(plan[..k])) + (if active.Some? then multiset{active.value} else multiset{})
    ensures a.open <= if active.Some? then {active.value} else {}
  {
    hide Names;
  }

  lemma HandlerGoKeeps(plan: seq<PlanEntry>, x: Attempt, raised: Raised, next: Attempt)
    requires DistinctNames(plan) && Sane(plan, x) && !x.point.InBody() && !x.point.Ended? && HandlerInv(plan, x, AccountOf(x.log))
    requires raised == NoError ==> Inv(plan, next, AccountOf(next.log))
    ensures var y := Go(x, CallAt(x.point), raised, next); Inv(plan, y, AccountOf(y.log))
  {
    hide Inv, Sane, HandlerInv, Record, DistinctNames, AccountOf;
    if raised != NoError {
      var call := CallAt(x.point);
      AccountAppends(x.log, CallRaised(call, raised));
      if x.point.Fails() && raised == CancelledError {
        HandlerCancelled(plan, x, AccountOf(x.log));
      } else {
        HandlerEscapes(plan, x, AccountOf(x.log), raised);
      }
    }
  }

  lemma CheckingKeeps(plan: seq<PlanEntry>, x: Attempt, a: Account)
    requires x.point.HandlerCheck? && Sane(plan, x) && HandlerInv(plan, x, a) && !a.cancelRequested
    ensures Inv(plan, x.(point := if x.active.Some? then FailStage else FailRun), a)
  {
    hide Chosen, Names;
  }

  /** What `fail_stage` does to the stage at hand when it is open, and what `cancel_stage` does. */
  lemma FailCloses(a: Account, plan: seq<PlanEntry>, k: nat, stage: string)
    requires Underway(a, plan, k, Some(stage)) && Unclosed(a, plan, k) && a.open == {stage} && a.late == 0
    ensures var b := Record(a, StageFailed(stage));
      Underway(b, plan, k, Some(stage)) && FailedOnce(b, plan, k, Some(stage)) && b.raises == a.raises && b.open == {}
  {
    hide Names;
  }

  lemma CancelCloses(a: Account, plan: seq<PlanEntry>, k: nat, stage: string)
    requires Underway(a, plan, k, Some(stage))
    requires (Unclosed(a, plan, k) && a.open == {stage}) || FailedOnce(a, plan, k, Some(stage))
    ensures var b := Record(a, StageCancelled(stage));
      && Underway(b, plan, k, Some(stage)) && b.open == {} && b.raises == a.raises
      && (Unclosed(a, plan, k) ==> CancelledOnce(b, plan, k, Some(stage)))
      && (FailedOnce(a, plan, k, Some(stage)) ==> ClosedTwice(b, plan, k, Some(stage)))
  {
    hide Names;
    assert multiset{stage, stage} == multiset{stage} + multiset{stage};
  }

  lemma FailingKeeps(plan: seq<PlanEntry>, x: Attempt)
    requires x.point.FailStage? && Sane(plan, x) && HandlerInv(plan, x, AccountOf(x.log))
    ensures var y := x.(log := Failing(x.log, x.active.value), point := FailRun); Inv(plan, y, AccountOf(y.log))
  {
    hide Chosen, Names, Record, OneError, Unclosed, FailedOnce, Underway;
    var a, stage := AccountOf(x.log), x.active.value;
    AccountAppends(x.log, StageFailed(stage));
    OnlyStageAtHandIsOpen(a, plan, x.k, stage);
    if stage in a.open {
      FailCloses(a, plan, x.k, stage);
    }
  }

  lemma OnlyStageAtHandIsOpen(a: Account, plan: seq<PlanEntry>, k: nat, stage: string)
    requires Underway(a, plan, k, Some(stage))
    ensures a.open == {} || a.open == {stage}
  {
  }

  lemma CancellingKeeps(plan: seq<PlanEntry>, x: Attempt)
    requires x.point.CancelStage? && Sane(plan, x) && HandlerInv(plan, x, AccountOf(x.log))
    ensures var y := x.(log := Cancelling(x.log, x.active.value), point := CancelRun); Inv(plan, y, AccountOf(y.log))
  {
    hide Chosen, Names, Record, CancellationRaised, FailRunCancelled, Underway, CancelledOnce, ClosedTwice;
    var a, stage := AccountOf(x.log), x.active.value;
    AccountAppends(x.log, StageCancelled(stage));
    OnlyStageAtHandIsOpen(a, plan, x.k, stage);
    FailRunCancelledIsCancellation(a.raises);
    if stage in a.open || stage in a.failed {
      CancelCloses(a, plan, x.k, stage);
    }
  }

  lemma FailRunCancelledIsCancellation(raises: seq<Raise>)
    ensures FailRunCancelled(raises) ==> CancellationRaised(raises)
  {
  }

  /** `fail_run` or `cancel_run` ends the run. */
  lemma ClosingEnds(plan: seq<PlanEntry>, x: Attempt, a: Account, e: Event, outcome: Outcome, log: seq<Event>)
    requires DistinctNames(plan) && Sane(plan, x) && (x.point.FailRun? || x.point.CancelRun?) && HandlerInv(plan, x, a)
    requires if x.point.FailRun? then e == RunFailed(x.active) && (outcome.RetryScheduled? || outcome == ExecutionFailed(x.active))
             else e == RunCancelled(x.active) && outcome == Cancelled(x.succeeded, x.skipped)
    ensures EndInv(plan, x.(log := log, point := Ended(outcome)), Record(a, e))
  {
    hide Chosen, Names, DistinctNames, EndsTwiceExactlyWhen, Escapes, StillClosing, HandlerInv, OneError, CancellationRaised, FailRunCancelled,
         Underway, Promises, StagesEnded, Record, Unclosed, CancelledOnce, FailedOnce, ClosedTwice;
    FailedOnceUnlessUnclosed(plan, x, a);
    StillClosingHasNotEscaped(a.raises);
    UnderwayEntry(a, plan, x.k, x.active);
    if x.point.CancelRun? {
      CancelRunIsForCancellation(plan, x, a);
    }
    StagesCarryOver(a, plan, x.k, x.active, e);
    if FailRunCancelled(a.raises) {
      FailRunCancelledIn(a.raises);
    }
    EndingsFit(Record(a, e), plan, x.k, x.active);
    PromisesFollow(a, plan, x.k, x.active, e);
  }

  lemma CancelRunIsForCancellation(plan: seq<PlanEntry>, x: Attempt, a: Account)
    requires Sane(plan, x) && x.point.CancelRun? && HandlerInv(plan, x, a)
    ensures CancellationRaised(a.raises)
  {
    hide Names, Chosen, CancellationRaised;
  }

  lemma HandlerStepKeeps(plan: seq<PlanEntry>, x: Attempt, answer: Answer)
    requires DistinctNames(plan) && Sane(plan, x) && !x.point.InBody() && !x.point.Ended? && HandlerInv(plan, x, AccountOf(x.log))
    ensures var y := HandlerStep(plan, x, answer); Inv(plan, y, AccountOf(y.log))
  {
    hide HandlerInv, EndInv, Record, AccountOf, CheckResult, Heard, Go, Failing, Cancelling, DistinctNames;
    var h := x.(log := Heard(x.log, answer));
    var a, check, raised := AccountOf(h.log), CheckResult(h.log, answer), answer.raised;
    HandlerWaits(plan, x, answer);
    match x.point {
      case HandlerCheck =>
        if check == NoError {
          CheckPasses(h.log, answer);
          CheckingKeeps(plan, h, a);
        }
        HandlerGoKeeps(plan, h, check, h.(point := if x.active.Some? then FailStage else FailRun));
      case FailStage =>
        FailingKeeps(plan, h);
        HandlerGoKeeps(plan, h, raised, h.(log := Failing(h.log, x.active.value), point := FailRun));
      case FailRun =>
        var outcome := if answer.retryAfter.Some? then RetryScheduled(answer.retryAfter.value) else ExecutionFailed(x.active);
        ClosingEnds(plan, h, a, RunFailed(x.active), outcome, h.log + [RunFailed(x.active)]);
        AccountAppends(h.log, RunFailed(x.active));
        HandlerGoKeeps(plan, h, raised, h.(log := h.log + [RunFailed(x.active)], point := Ended(outcome)));
      case CancelStage =>
        CancellingKeeps(plan, h);
        HandlerGoKeeps(plan, h, raised, h.(log := Cancelling(h.log, x.active.value), point := CancelRun));
      case CancelRun =>
        ClosingEnds(plan, h, a, RunCancelled(x.active), Cancelled(x.succeeded, x.skipped), h.log + [RunCancelled(x.active)]);
        AccountAppends(h.log, RunCancelled(x.active));
        HandlerGoKeeps(plan, h, raised,
                       h.(log := h.log + [RunCancelled(x.active)], point := Ended(Cancelled(x.succeeded, x.skipped))));
    }
  }

  lemma {:induction false} FinishKeeps(assembled: Option<seq<PlanEntry>>, x: Attempt, script: seq<Answer>)
    requires var plan := PlanOf(assembled); DistinctNames(plan) && Inv(plan, x, AccountOf(x.log))
    ensures var r := Finish(assembled, x, script); EndInv(PlanOf(assembled), r, AccountOf(r.log))
    decreases x.point.InBody(), |PlanOf(assembled)| - x.k, x.point.Rank()
  {
    hide BodyInv, HandlerInv, EndInv, Record, AccountOf, DistinctNames, FrameStep, EntryStep, HandlerStep;
    if !x.point.Ended? {
      var y := Step(assembled, x, First(script));
      if x.point.InEntry() {
        EntryStepIsOnward(PlanOf(assembled), x, First(script));
        EntryStepKeeps(PlanOf(assembled), x, First(script));
      } else if x.point.InBody() {
        FrameStepIsOnward(assembled, x, First(script));
        FrameStepKeeps(assembled, x, First(script));
      } else {
        HandlerStepStaysSane(PlanOf(assembled), x, First(script));
        HandlerStepKeeps(PlanOf(assembled), x, First(script));
      }
      FinishKeeps(assembled, y, Rest(script));
    }
  }

  lemma StartHolds(plan: seq<PlanEntry>)
    ensures Inv(plan, START, AccountOf(START.log))
  {
    assert plan[..0] == [];
  }

  /**
   * Every claimed run, whatever its calls raise and whenever it is cancelled: progress is a prefix of the
   * plan and the whole of it on success, resolvers see exactly the earlier outputs, at most one stage is
   * open and at most one step follows a cancellation request; the outcome says which calls raised what; and
   * the run ends exactly once, with no stage left open, unless an error escapes, and then not at all.
   */
  lemma EveryRunKeepsItsPromises(assembled: Option<seq<PlanEntry>>, script: seq<Answer>)
    requires DistinctNames(PlanOf(assembled))
    ensures var r := Finish(assembled, START, script); EndInv(PlanOf(assembled), r, AccountOf(r.log))
  {
    hide Inv, EndInv;
    StartHolds(PlanOf(assembled));
    FinishKeeps(assembled, START, script);
  }

  /** What the handlers of `run` raise is at most the cancellation, found before `fail_run` is called. */
  predicate ClosesInPeace(raises: seq<Raise>) {
    forall i | 1 <= i < |raises| :: (raises[i].call == CheckCall || raises[i].call == FailStageCall) && raises[i].error != OtherError
  }

  /**
   * When no closing call raises, except that the check of the handler or `fail_stage` may find the cancellation,
   * the run ends exactly once, no stage is left open, every started stage has ended exactly once, and no stage twice.
   */
  lemma ClosingCallsEndTheRun(assembled: Option<seq<PlanEntry>>, script: seq<Answer>)
    requires DistinctNames(PlanOf(assembled)) && ClosesInPeace(AccountOf(Finish(assembled, START, script).log).raises)
    ensures EverythingEnds(AccountOf(Finish(assembled, START, script).log))
  {
    hide Finish, Inv, HandlerInv, BodyInv, AccountOf, Chosen, Names, DistinctNames;
    EveryRunKeepsItsPromises(assembled, script);
    var r := Finish(assembled, START, script);
    var a := AccountOf(r.log);
    assert EndInv(PlanOf(assembled), r, a);
    FirstRaiseIsNotClosing(r.point.outcome, a.raises);
    assert Raise(FailRunCall, CancelledError) !in a.raises;
    forall s
      ensures a.endings[s] <= 1 && (s in a.started ==> a.endings[s] == 1)
    {
      assert EndsTwiceExactlyWhen(a, s);
    }
  }

  /** The run has ended once, no stage is open, and each has ended once if it was started, and never more than once. */
  ghost predicate EverythingEnds(a: Account) {
    && a.runEndings == 1 && a.open == {}
    && (forall s :: a.endings[s] <= 1) && (forall s | s in a.started :: a.endings[s] == 1)
  }

  lemma FirstRaiseIsNotClosing(outcome: Outcome, raises: seq<Raise>)
    requires OutcomeFits(outcome, raises) && ClosesInPeace(raises)
    ensures Raise(FailRunCall, CancelledError) !in raises && !Escapes(raises)
  {
  }

  lemma OneStep(assembled: Option<seq<PlanEntry>>, x: Attempt, answer: Answer, rest: seq<Answer>)
    requires Sane(PlanOf(assembled), x) && !x.point.Ended? && Sane(PlanOf(assembled), Step(assembled, x, answer))
    ensures Finish(assembled, x, [answer] + rest) == Finish(assembled, Step(assembled, x, answer), rest)
  {
    hide Step, Sane, Finish;
    assert ([answer] + rest)[1..] == rest;
    FinishUnfolds(assembled, x, [answer] + rest);
  }

  /** The log of a stage that raises, up to the error being handled. */
  function FailingLog(s: string): seq<Event> {
    [InputResolved(s, map[]), StageStarted(s), CallRaised(OutsideCall, OtherError)]
  }

  /** The points of a plan of one stage, before and after its input is resolved. */
  function AtStage(s: string, point: Point, log: seq<Event>): Attempt { START.(point := point, active := Some(s), log := log) }

  lemma EntrySteps(s: string)
    ensures var plan := [PlanEntry(s, false)];
            var resolved := [InputResolved(s, map[])];
            var started := [InputResolved(s, map[]), StageStarted(s)];
      && EntryStep(plan, AtStage(s, Enter, []), FINE) == AtStage(s, Configure, [])
      && EntryStep(plan, AtStage(s, Configure, []), FINE) == AtStage(s, ResolveInput, [])
      && EntryStep(plan, AtStage(s, ResolveInput, []), FINE) == AtStage(s, Identify, resolved)
      && EntryStep(plan, AtStage(s, Identify, resolved), FINE) == AtStage(s, StartStage, resolved)
      && EntryStep(plan, AtStage(s, StartStage, resolved), FINE) == AtStage(s, Execute, started)
      && EntryStep(plan, AtStage(s, Execute, started), FINE.(raised := OtherError)) == AtStage(s, HandlerCheck, FailingLog(s))
  {
    assert [InputResolved(s, map[])] + [StageStarted(s)] == [InputResolved(s, map[]), StageStarted(s)];
    assert [InputResolved(s, map[]), StageStarted(s)] + [CallRaised(OutsideCall, OtherError)] == FailingLog(s);
    assert [] + [InputResolved(s, map[])] == [InputResolved(s, map[])];
  }

  lemma StageStarts(s: string, rest: seq<Answer>)
    ensures Finish(Some([PlanEntry(s, false)]), AtStage(s, Enter, []), [FINE, FINE, FINE, FINE, FINE] + rest)
         == Finish(Some([PlanEntry(s, false)]), AtStage(s, Execute, [InputResolved(s, map[]), StageStarted(s)]), rest)
  {
    hide AccountOf, Finish, EntryStep, FrameStep, HandlerStep;
    var assembled := Some([PlanEntry(s, false)]);
    var resolved := [InputResolved(s, map[])];
    EntrySteps(s);
    var f1 := [FINE] + rest;
    var f2 := [FINE] + f1;
    var f3 := [FINE] + f2;
    var f4 := [FINE] + f3;
    assert [FINE, FINE, FINE, FINE, FINE] + rest == [FINE] + f4;
    OneStep(assembled, AtStage(s, Enter, []), FINE, f4);
    OneStep(assembled, AtStage(s, Configure, []), FINE, f3);
    OneStep(assembled, AtStage(s, ResolveInput, []), FINE, f2);
    OneStep(assembled, AtStage(s, Identify, resolved), FINE, f1);
    OneStep(assembled, AtStage(s, StartStage, resolved), FINE, rest);
  }

  /** A plan of one stage, whose execution raises. */
  lemma StageRaises(s: string, rest: seq<Answer>)
    ensures var assembled := Some([PlanEntry(s, false)]);
      Finish(assembled, START, [FINE, FINE, FINE, FINE, FINE, FINE, FINE, FINE.(raised := OtherError)] + rest)
      == Finish(assembled, AtStage(s, HandlerCheck, FailingLog(s)), rest)
  {
    hide AccountOf, Failing, Cancelling, Finish, EntryStep, HandlerStep, FailingLog;
    var assembled := Some([PlanEntry(s, false)]);
    EntrySteps(s);
    var f0 := [FINE.(raised := OtherError)] + rest;
    var f5 := [FINE, FINE, FINE, FINE, FINE] + f0;
    var f6 := [FINE] + f5;
    assert [FINE, FINE, FINE, FINE, FINE, FINE, FINE, FINE.(raised := OtherError)] + rest == [FINE] + f6;
    OneStep(assembled, START, FINE, f6);
    OneStep(assembled, START.(point := Assemble), FINE, f5);
    StageStarts(s, f0);
    OneStep(assembled, AtStage(s, Execute, [InputResolved(s, map[]), StageStarted(s)]), FINE.(raised := OtherError), rest);
  }

  lemma FailingAccount(s: string)
    ensures var a := AccountOf(FailingLog(s)); a.open == {s} && !a.cancelRequested && a.failed == {} && a.endings == multiset{}
    ensures CancelRequested !in FailingLog(s)
  {
    var l1 := [InputResolved(s, map[])];
    AccountAppends([], l1[0]);
    assert [] + [l1[0]] == l1;
    AccountAppends(l1, StageStarted(s));
    assert l1 + [StageStarted(s)] + [CallRaised(OutsideCall, OtherError)] == FailingLog(s);
    AccountAppends(l1 + [StageStarted(s)], CallRaised(OutsideCall, OtherError));
  }

  /** The account of what follows: a failure, the cancellation raised, and a second ending. */
  lemma SecondEndingAccount(s: string)
    ensures var failed := FailingLog(s) + [StageFailed(s), CancelRequested, CallRaised(FailRunCall, CancelledError)];
      s in AccountOf(failed).failed && AccountOf(failed + [StageCancelled(s)] + [RunCancelled(Some(s))]).endings[s] == 2
  {
    hide AccountOf, FailingLog;
    FailingAccount(s);
    var log, failed := FailingLog(s), FailingLog(s) + [StageFailed(s), CancelRequested, CallRaised(FailRunCall, CancelledError)];
    assert log + [StageFailed(s)] + [CancelRequested] + [CallRaised(FailRunCall, CancelledError)] == failed;
    AccountAppends(log, StageFailed(s));
    AccountAppends(log + [StageFailed(s)], CancelRequested);
    AccountAppends(log + [StageFailed(s)] + [CancelRequested], CallRaised(FailRunCall, CancelledError));
    AccountAppends(failed, StageCancelled(s));
    AccountAppends(failed + [StageCancelled(s)], RunCancelled(Some(s)));
  }

  /** One stage raises, and a cancellation request arrives while `fail_run` is called, which raises it. */
  const FAILED_THEN_CANCELLED: seq<Answer> :=
    [FINE, FINE, FINE, FINE, FINE, FINE, FINE, FINE.(raised := OtherError)] + [FINE, FINE, FINE.(requested := true, raised := CancelledError)]

  lemma HandlerSteps(s: string)
    ensures var plan, log := [PlanEntry(s, false)], FailingLog(s);
            var failed := log + [StageFailed(s)];
            var raised := log + [StageFailed(s), CancelRequested, CallRaised(FailRunCall, CancelledError)];
      && HandlerStep(plan, AtStage(s, HandlerCheck, log), FINE) == AtStage(s, FailStage, log)
      && HandlerStep(plan, AtStage(s, FailStage, log), FINE) == AtStage(s, FailRun, failed)
      && HandlerStep(plan, AtStage(s, FailRun, failed), FINE.(requested := true, raised := CancelledError)) == AtStage(s, CancelStage, raised)
      && HandlerStep(plan, AtStage(s, CancelStage, raised), FINE) == AtStage(s, CancelRun, raised + [StageCancelled(s)])
  {
    hide AccountOf, FailingLog;
    FailingAccount(s);
    SecondEndingAccount(s);
    assert FailingLog(s) + [StageFailed(s)] + [CancelRequested] + [CallRaised(FailRunCall, CancelledError)]
        == FailingLog(s) + [StageFailed(s), CancelRequested, CallRaised(FailRunCall, CancelledError)];
  }

  /** That run ends as cancelled, and its one stage has ended twice: failed, and then cancelled. */
  lemma FailureThenCancellation(s: string)
    ensures var r := Finish(Some([PlanEntry(s, false)]), START, FAILED_THEN_CANCELLED);
      && r.point == Ended(Cancelled([], []))
      && r.log == FailingLog(s) + [StageFailed(s), CancelRequested, CallRaised(FailRunCall, CancelledError)] + [StageCancelled(s)]
                  + [RunCancelled(Some(s))]
      && AccountOf(r.log).endings[s] == 2
  {
    hide Finish, EntryStep, FrameStep, HandlerStep, AccountOf, FailingLog;
    var assembled := Some([PlanEntry(s, false)]);
    var log := FailingLog(s);
    var raised := log + [StageFailed(s), CancelRequested, CallRaised(FailRunCall, CancelledError)];
    var requested := FINE.(requested := true, raised := CancelledError);
    StageRaises(s, [FINE, FINE, requested]);
    FailingAccount(s);
    SecondEndingAccount(s);
    HandlerSteps(s);
    assert [FINE, FINE, requested] == [FINE] + [FINE, requested] && [FINE, requested] == [FINE] + [requested] && [requested] == [requested] + [];
    OneStep(assembled, AtStage(s, HandlerCheck, log), FINE, [FINE, requested]);
    OneStep(assembled, AtStage(s, FailStage, log), FINE, [requested]);
    OneStep(assembled, AtStage(s, FailRun, log + [StageFailed(s)]), requested, []);
    FinishUnfolds(assembled, AtStage(s, CancelStage, raised), []);
    LastStep(assembled, AtStage(s, CancelRun, raised + [StageCancelled(s)]));
  }

  lemma LastStep(assembled: Option<seq<PlanEntry>>, x: Attempt)
    requires Sane(PlanOf(assembled), x) && x.point.CancelRun?
    ensures Finish(assembled, x, []) == x.(point := Ended(Cancelled(x.succeeded, x.skipped)), log := x.log + [RunCancelled(x.active)])
  {
    EndedFinishes(assembled, Step(assembled, x, FINE), []);
  }

  /** Assembly raises, and so does the check of the error handler. */
  const NEVER_CLOSED: seq<Answer> := [FINE, FINE.(raised := OtherError), FINE.(raised := OtherError)]

  /** That run never ends: nothing closes it, whatever its plan. */
  lemma ClaimedRunStaysOpen(assembled: Option<seq<PlanEntry>>)
    ensures var r := Finish(assembled, START, NEVER_CLOSED);
      && r.point == Ended(Escaped)
      && r.log == [CallRaised(OutsideCall, OtherError), CallRaised(CheckCall, OtherError)]
      && AccountOf(r.log).runEndings == 0
  {
    hide AccountOf, Finish, Step, Sane, START;
    var raising := FINE.(raised := OtherError);
    var first, both := [CallRaised(OutsideCall, OtherError)], [CallRaised(OutsideCall, OtherError), CallRaised(CheckCall, OtherError)];
    var x := START.(point := HandlerCheck, log := first);
    NeverClosedSteps(assembled);
    assert NEVER_CLOSED == [FINE] + ([raising] + ([raising] + [])) && both == first + [CallRaised(CheckCall, OtherError)];
    OneStep(assembled, START, FINE, [raising] + ([raising] + []));
    OneStep(assembled, START.(point := Assemble), raising, [raising] + []);
    OneStep(assembled, x, raising, []);
    EndedFinishes(assembled, x.(point := Ended(Escaped), log := both), []);
    AccountAppends([], CallRaised(OutsideCall, OtherError));
    AccountAppends(first, CallRaised(CheckCall, OtherError));
    assert [] + [CallRaised(OutsideCall, OtherError)] == first;
    NothingHappened();
  }

  lemma NeverClosedSteps(assembled: Option<seq<PlanEntry>>)
    ensures var raising := FINE.(raised := OtherError);
            var assembling := START.(point := Assemble);
            var handling := START.(point := HandlerCheck, log := [CallRaised(OutsideCall, OtherError)]);
            var ended := START.(point := Ended(Escaped), log := [CallRaised(OutsideCall, OtherError), CallRaised(CheckCall, OtherError)]);
      && Sane(PlanOf(assembled), START) && Sane(PlanOf(assembled), assembling) && Sane(PlanOf(assembled), handling) && Sane(PlanOf(assembled), ended)
      && !START.point.Ended?
      && Step(assembled, START, FINE) == assembling
      && Step(assembled, assembling, raising) == handling
      && Step(assembled, handling, raising) == ended
  {
    hide AccountOf, EntryStep;
    assert [] + [CallRaised(OutsideCall, OtherError)] == [CallRaised(OutsideCall, OtherError)];
    assert [CallRaised(OutsideCall, OtherError)] + [CallRaised(CheckCall, OtherError)]
        == [CallRaised(OutsideCall, OtherError), CallRaised(CheckCall, OtherError)];
  }

  lemma NothingHappened()
    ensures AccountOf([]) == NOTHING
  {
  }
}
