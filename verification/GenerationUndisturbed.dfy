/**
 * What a run comes to when nothing is raised and no cancellation is requested: every call in order, and the output of
 * each stage taken from the answer to its execution.
 */
module GenerationUndisturbed {
  import opened Prelude
  import opened Generation
  import opened GenerationRuns

  function Drop(script: seq<Answer>, n: nat): seq<Answer> { if n < |script| then script[n..] else [] }

  /** The `n`-th answer. */
  function AnswerTo(script: seq<Answer>, n: nat): Answer { if n < |script| then script[n] else FINE }

  lemma Drops(script: seq<Answer>, n: nat)
    ensures Rest(Drop(script, n)) == Drop(script, n + 1) && First(Drop(script, n)) == AnswerTo(script, n)
  {
  }

  predicate Fine(a: Answer) { a.raised == NoError && !a.requested }

  predicate Undisturbed(script: seq<Answer>) { forall a | a in script :: Fine(a) }

  /** What is to happen up to entry `k`: the events, the outputs, and how many calls have been made. */
  datatype Progress = Progress(log: seq<Event>, outputs: map<string, Output>, calls: nat)

  /** A skipped entry takes two calls, a check and the skip; a stage takes eight, the sixth of them its execution. */
  function UpTo(plan: seq<PlanEntry>, script: seq<Answer>, k: nat): Progress
    requires k <= |plan|
  {
    if k == 0 then Progress([], map[], 2)
    else
      var p, entry := UpTo(plan, script, k - 1), plan[k - 1];
      if entry.skip then Progress(p.log + [StageSkipped(entry.name)], p.outputs, p.calls + 2)
      else
        var output := AnswerTo(script, p.calls + 5).output;
        Progress(p.log + [InputResolved(entry.name, p.outputs), StageStarted(entry.name), StageCompleted(entry.name, output)],
                 p.outputs[entry.name := output], p.calls + 8)
  }

  /** The attempt at entry `k`. */
  ghost predicate Reached(plan: seq<PlanEntry>, script: seq<Answer>, k: nat, x: Attempt) {
    && k <= |plan| && x.k == k && x.log == UpTo(plan, script, k).log && x.completed == UpTo(plan, script, k).outputs
    && x.succeeded == Chosen(plan[..k], false) && x.skipped == Chosen(plan[..k], true)
    && x.point == (if k < |plan| then Enter else FinalCheck) && x.active == (if k < |plan| then Some(plan[k].name) else None)
  }

  lemma NoRequests(plan: seq<PlanEntry>, script: seq<Answer>, k: nat)
    requires k <= |plan|
    ensures CancelRequested !in UpTo(plan, script, k).log
  {
    if k > 0 {
      NoRequests(plan, script, k - 1);
    }
  }

  lemma FineAnswers(script: seq<Answer>, n: nat)
    requires Undisturbed(script)
    ensures Fine(AnswerTo(script, n))
  {
  }

  lemma FineIsHeard(log: seq<Event>, a: Answer)
    requires Fine(a) && CancelRequested !in log
    ensures Heard(log, a) == log && CheckResult(log, a) == NoError
  {
  }

  /** What an entry does with a fine answer, point by point. */
  lemma FineEntryStep(plan: seq<PlanEntry>, x: Attempt, a: Answer)
    requires Sane(plan, x) && x.point.InEntry() && Fine(a) && CancelRequested !in x.log
    ensures var name := plan[x.k].name;
      EntryStep(plan, x, a) ==
      match x.point
      case Enter => x.(point := if plan[x.k].skip then Skip else Configure)
      case Skip => ToEntry(plan, x.(log := x.log + [StageSkipped(name)], skipped := x.skipped + [name]), x.k + 1)
      case Configure => x.(point := ResolveInput)
      case ResolveInput => x.(point := Identify, log := x.log + [InputResolved(name, x.completed)])
      case Identify => x.(point := StartStage)
      case StartStage => x.(point := Execute, log := x.log + [StageStarted(name)])
      case Execute => x.(point := Recheck, output := a.output)
      case Recheck => x.(point := CompleteStage)
      case CompleteStage => ToEntry(plan, Completed(x, name), x.k + 1)
  {
    hide CheckResult, Heard;
    FineIsHeard(x.log, a);
    assert x.(log := x.log) == x;
  }

  lemma FineFrameStep(plan: seq<PlanEntry>, x: Attempt, a: Answer)
    requires Sane(plan, x) && x.point.InBody() && !x.point.InEntry() && Fine(a) && CancelRequested !in x.log
    ensures FrameStep(Some(plan), x, a) ==
      match x.point
      case Begin => x.(point := Assemble)
      case Assemble => ToEntry(plan, x, 0)
      case FinalCheck => x.(point := CompleteRun)
      case CompleteRun => x.(log := x.log + [RunCompleted], point := Ended(Succeeded(x.succeeded, x.skipped)))
  {
    hide CheckResult, Heard;
    FineIsHeard(x.log, a);
    assert x.(log := x.log) == x;
  }

  /** One answered call of the body. */
  lemma Next(plan: seq<PlanEntry>, x: Attempt, script: seq<Answer>, n: nat) returns (y: Attempt)
    requires Undisturbed(script) && Sane(plan, x) && x.point.InBody() && CancelRequested !in x.log
    ensures y == if x.point.InEntry() then EntryStep(plan, x, AnswerTo(script, n)) else FrameStep(Some(plan), x, AnswerTo(script, n))
    ensures Fine(AnswerTo(script, n)) && Sane(plan, y)
    ensures Finish(Some(plan), x, Drop(script, n)) == Finish(Some(plan), y, Drop(script, n + 1))
  {
    hide EntryStep, FrameStep, HandlerStep;
    FineAnswers(script, n);
    Drops(script, n);
    StepGoesOn(Some(plan), x, AnswerTo(script, n));
    FinishUnfolds(Some(plan), x, Drop(script, n));
    y := Step(Some(plan), x, AnswerTo(script, n));
  }

  /** One call of an entry, with what it does. */
  lemma NextInEntry(plan: seq<PlanEntry>, x: Attempt, script: seq<Answer>, n: nat) returns (y: Attempt)
    requires Undisturbed(script) && Sane(plan, x) && x.point.InEntry() && CancelRequested !in x.log
    ensures var name, a := plan[x.k].name, AnswerTo(script, n);
      y ==
      match x.point
      case Enter => x.(point := if plan[x.k].skip then Skip else Configure)
      case Skip => ToEntry(plan, x.(log := x.log + [StageSkipped(name)], skipped := x.skipped + [name]), x.k + 1)
      case Configure => x.(point := ResolveInput)
      case ResolveInput => x.(point := Identify, log := x.log + [InputResolved(name, x.completed)])
      case Identify => x.(point := StartStage)
      case StartStage => x.(point := Execute, log := x.log + [StageStarted(name)])
      case Execute => x.(point := Recheck, output := a.output)
      case Recheck => x.(point := CompleteStage)
      case CompleteStage => ToEntry(plan, Completed(x, name), x.k + 1)
    ensures Sane(plan, y) && Finish(Some(plan), x, Drop(script, n)) == Finish(Some(plan), y, Drop(script, n + 1))
  {
    hide EntryStep, FrameStep, Finish, Undisturbed;
    y := Next(plan, x, script, n);
    FineEntryStep(plan, x, AnswerTo(script, n));
  }

  /** A stage from its check to its start. */
  lemma StagePrepares(plan: seq<PlanEntry>, x: Attempt, script: seq<Answer>, n: nat)
    requires Undisturbed(script) && x.point.Enter? && x.k < |plan| && !plan[x.k].skip && CancelRequested !in x.log
    ensures var name := plan[x.k].name;
      Finish(Some(plan), x, Drop(script, n))
      == Finish(Some(plan), x.(point := Execute, log := x.log + [InputResolved(name, x.completed)] + [StageStarted(name)]), Drop(script, n + 5))
  {
    hide Finish, Undisturbed, Drop, AnswerTo;
    var y1 := NextInEntry(plan, x, script, n);
    var y2 := NextInEntry(plan, y1, script, n + 1);
    var y3 := NextInEntry(plan, y2, script, n + 2);
    var y4 := NextInEntry(plan, y3, script, n + 3);
    var y5 := NextInEntry(plan, y4, script, n + 4);
  }

  /** And from its execution to its completion. */
  lemma StageCompletes(plan: seq<PlanEntry>, x: Attempt, script: seq<Answer>, n: nat)
    requires Undisturbed(script) && x.point.Execute? && x.k < |plan| && CancelRequested !in x.log
    ensures var output := AnswerTo(script, n).output;
      Finish(Some(plan), x, Drop(script, n))
      == Finish(Some(plan), ToEntry(plan, Completed(x.(output := output), plan[x.k].name), x.k + 1), Drop(script, n + 3))
  {
    hide Finish, Undisturbed, Drop, AnswerTo;
    var y1 := NextInEntry(plan, x, script, n);
    var y2 := NextInEntry(plan, y1, script, n + 1);
    var y3 := NextInEntry(plan, y2, script, n + 2);
  }

  lemma ToEntryForgetsPoint(plan: seq<PlanEntry>, x: Attempt, point: Point, k: nat)
    ensures ToEntry(plan, x.(point := point), k) == ToEntry(plan, x, k)
  {
  }

  lemma EntrySkips(plan: seq<PlanEntry>, x: Attempt, script: seq<Answer>, n: nat)
    requires Undisturbed(script) && x.point.Enter? && x.k < |plan| && plan[x.k].skip && CancelRequested !in x.log
    ensures var name := plan[x.k].name;
      Finish(Some(plan), x, Drop(script, n))
      == Finish(Some(plan), ToEntry(plan, x.(log := x.log + [StageSkipped(name)], skipped := x.skipped + [name]), x.k + 1), Drop(script, n + 2))
  {
    hide Finish, Undisturbed, Drop, AnswerTo, ToEntry;
    var y1 := NextInEntry(plan, x, script, n);
    assert y1 == x.(point := Skip);
    var y2 := NextInEntry(plan, y1, script, n + 1);
    var name := plan[x.k].name;
    ToEntryForgetsPoint(plan, x.(log := x.log + [StageSkipped(name)], skipped := x.skipped + [name]), Skip, x.k + 1);
  }

  /** One entry further. */
  lemma ReachesNext(plan: seq<PlanEntry>, script: seq<Answer>, k: nat, x: Attempt) returns (y: Attempt)
    requires Undisturbed(script) && k < |plan| && Reached(plan, script, k, x)
    ensures Reached(plan, script, k + 1, y)
    ensures Finish(Some(plan), x, Drop(script, UpTo(plan, script, k).calls)) == Finish(Some(plan), y, Drop(script, UpTo(plan, script, k + 1).calls))
  {
    hide Finish, Chosen, Undisturbed;
    var p, name := UpTo(plan, script, k), plan[k].name;
    NoRequests(plan, script, k);
    NextName(plan, k);
    if plan[k].skip {
      EntrySkips(plan, x, script, p.calls);
      y := ToEntry(plan, x.(log := x.log + [StageSkipped(name)], skipped := x.skipped + [name]), k + 1);
    } else {
      StagePrepares(plan, x, script, p.calls);
      var started := x.(point := Execute, log := x.log + [InputResolved(name, x.completed)] + [StageStarted(name)]);
      StageCompletes(plan, started, script, p.calls + 5);
      var output := AnswerTo(script, p.calls + 5).output;
      y := ToEntry(plan, Completed(started.(output := output), name), k + 1);
      assert p.log + [InputResolved(name, p.outputs)] + [StageStarted(name)] + [StageCompleted(name, output)]
          == p.log + [InputResolved(name, p.outputs), StageStarted(name), StageCompleted(name, output)];
    }
  }

  lemma {:induction false} ReachesEnd(plan: seq<PlanEntry>, script: seq<Answer>, k: nat, x: Attempt)
    requires Undisturbed(script) && Reached(plan, script, k, x)
    ensures var r := Finish(Some(plan), x, Drop(script, UpTo(plan, script, k).calls));
      r.point == Ended(Succeeded(Chosen(plan, false), Chosen(plan, true))) && r.log == UpTo(plan, script, |plan|).log + [RunCompleted]
    decreases |plan| - k
  {
    hide Finish, Chosen, Undisturbed;
    if k < |plan| {
      var y := ReachesNext(plan, script, k, x);
      ReachesEnd(plan, script, k + 1, y);
    } else {
      assert plan[..k] == plan;
      NoRequests(plan, script, k);
      RunCompletes(plan, script, UpTo(plan, script, k).calls, x);
    }
  }

  lemma RunCompletes(plan: seq<PlanEntry>, script: seq<Answer>, n: nat, x: Attempt)
    requires Undisturbed(script) && x.point.FinalCheck? && x.k <= |plan| && CancelRequested !in x.log
    ensures Finish(Some(plan), x, Drop(script, n)) == x.(point := Ended(Succeeded(x.succeeded, x.skipped)), log := x.log + [RunCompleted])
  {
    hide Finish, FrameStep, Undisturbed, Drop, AnswerTo;
    var y1 := Next(plan, x, script, n);
    FineFrameStep(plan, x, AnswerTo(script, n));
    var y2 := Next(plan, y1, script, n + 1);
    FineFrameStep(plan, y1, AnswerTo(script, n + 1));
    EndedFinishes(Some(plan), y2, Drop(script, n + 2));
  }

  /**
   * An undisturbed run succeeds. Entry by entry, it skips what is to be skipped, and for each other stage resolves its
   * input from the outputs of the stages before it, starts it, executes it and completes it with the output of that
   * execution; then it completes the run.
   */
  lemma UndisturbedRunSucceeds(plan: seq<PlanEntry>, script: seq<Answer>)
    requires Undisturbed(script)
    ensures var r := Finish(Some(plan), START, script);
      && r.point == Ended(Succeeded(Chosen(plan, false), Chosen(plan, true)))
      && r.log == UpTo(plan, script, |plan|).log + [RunCompleted]
  {
    hide Finish, Undisturbed, AnswerTo, UpTo, Chosen, Reached;
    StartIsReached(plan, script);
    RunStarts(plan, script);
    ReachesEnd(plan, script, 0, ToEntry(plan, START, 0));
  }

  lemma RunStarts(plan: seq<PlanEntry>, script: seq<Answer>)
    requires Undisturbed(script)
    ensures Finish(Some(plan), START, Drop(script, 0)) == Finish(Some(plan), ToEntry(plan, START, 0), Drop(script, 2))
  {
    hide Finish, FrameStep, Undisturbed, AnswerTo, Drop, ToEntry;
    var y1 := Next(plan, START, script, 0);
    FineFrameStep(plan, START, AnswerTo(script, 0));
    assert y1 == START.(point := Assemble);
    var y2 := Next(plan, y1, script, 1);
    FineFrameStep(plan, y1, AnswerTo(script, 1));
    AssemblyLeadsToEntry(plan);
  }

  lemma AssemblyLeadsToEntry(plan: seq<PlanEntry>)
    ensures ToEntry(plan, START.(point := Assemble), 0) == ToEntry(plan, START, 0) && Sane(plan, ToEntry(plan, START, 0))
  {
  }

  lemma StartIsReached(plan: seq<PlanEntry>, script: seq<Answer>)
    ensures Reached(plan, script, 0, ToEntry(plan, START, 0)) && UpTo(plan, script, 0).calls == 2
    ensures Drop(script, 0) == script
  {
    assert plan[..0] == [];
  }
}
