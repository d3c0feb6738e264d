/**
 * A put that overlaps promotions of the same key: one putter, whose HEAD and PUT are two requests, among any
 * number of promoting workers. When its payload survives, and exactly when it is lost.
 */
module S3PutRace {
  import opened Prelude
  import opened Artifacts
  import opened S3Promotion

  /**
   * `landed` is what ready held when the PUT took effect. `early` are the workers whose calls had read the
   * temporary object before that, and `earlyDelete` says that one of them has deleted since.
   */
  datatype Race = Race(bucket: Bucket, workers: seq<Worker>, putter: Putter, landed: Option<Option<StoredObject>>, early: set<nat>,
                       earlyDelete: bool)

  datatype Move = Promoter(worker: nat, fault: Fault) | Again(worker: nat) | Put(fault: Fault)

  /** The worker has read an object as temporary, and its call has not ended. */
  predicate HasRead(w: Worker) {
    (w.StatReady? && w.temporary.Some?) || w.CopyIfAbsent? || w.StatAfterConflict? || w.StatAfterCopy? || w.DeleteTemporary?
  }

  function Next(key: string, late: StoredObject, s: Race, m: Move): Race {
    match m
    case Put(fault) =>
      var (p, b) := PutStep(late, s.putter, s.bucket, fault);
      var lands := s.putter.PutTemporary? && TakesEffect(fault);
      s.(bucket := b, putter := p,
         landed := if lands then Some(s.bucket.ready) else s.landed,
         early := if lands then set i: nat | i < |s.workers| && HasRead(s.workers[i]) else s.early)
    case Again(i) =>
      if i < |s.workers| && s.workers[i].Finished() then s.(workers := s.workers[i := StatTemporary]) else s
    case Promoter(i, fault) =>
      if i >= |s.workers| || s.workers[i].Finished() then s else
      var (w, b) := Step(key, s.workers[i], s.bucket, fault);
      s.(bucket := b, workers := s.workers[i := w],
         early := if w.Finished() then s.early - {i} else s.early,
         earlyDelete := s.earlyDelete || (s.workers[i].DeleteTemporary? && i in s.early && TakesEffect(fault)))
  }

  function Run(key: string, late: StoredObject, s: Race, moves: seq<Move>): Race
    decreases |moves|
  {
    if moves == [] then s else Run(key, late, Next(key, late, s, moves[0]), moves[1..])
  }

  function Start(b: Bucket, workers: nat): Race {
    Race(b, seq(workers, _ => StatTemporary), HeadReady, None, {}, false)
  }

  /** The late payload is in neither place. */
  predicate Lost(s: Race, late: StoredObject) {
    s.bucket.temporary != Some(late) && s.bucket.ready != Some(late)
  }

  /** What some put uploaded. */
  ghost predicate IsUpload(o: StoredObject) { exists payload, contentType :: o == Uploaded(payload, contentType) }

  /** Uploads with the same size, checksum and content type are the same. */
  lemma SameUploads(key: string, a: StoredObject, b: StoredObject)
    requires IsUpload(a) && IsUpload(b)
    ensures WellFormed(a) && WellFormed(b)
    ensures SameArtifact(TemporaryStat(key, a), ReadyStat(key, b)) <==> a == b
    ensures TemporaryStat(key, a) == TemporaryStat(key, b) <==> a == b
  {
  }

  // ----- The invariant, before and after the PUT lands -----

  /** Sources are stats of what was temporary: `o` before the PUT, `late` after it. */
  predicate Reads(w: Worker, source: ArtifactStat) {
    match w
    case StatReady(t) => t == Some(source)
    case CopyIfAbsent(t) => t == source
    case StatAfterConflict(t) => t == source
    case StatAfterCopy(t) => t == source
    case _ => true
  }

  /** The PUT landed while ready was absent: `late` alone is left, and only its copy can be ready. */
  predicate LandedFirst(key: string, s: Race, o: StoredObject, late: StoredObject) {
    && (s.bucket.temporary == Some(late) || (s.bucket.temporary == None && s.bucket.ready == Some(late)))
    && (s.bucket.ready == None || s.bucket.ready == Some(late))
    && forall i | 0 <= i < |s.workers| :: s.workers[i].DeleteTemporary? ==> s.bucket.ready.Some?
  }

  /** The PUT landed on a ready `o`: whoever has read `late` does not delete, and whoever may delete is early. */
  predicate LandedSecond(key: string, s: Race, o: StoredObject, late: StoredObject)
    requires WellFormed(o) && WellFormed(late)
  {
    && s.bucket.ready == Some(o)
    && s.bucket.temporary == (if s.earlyDelete then None else Some(late))
    && forall i: nat | i < |s.workers| && HasRead(s.workers[i]) ::
         i in s.early || (!s.workers[i].DeleteTemporary? && Reads(s.workers[i], TemporaryStat(key, late)))
  }

  predicate RaceInv(key: string, s: Race, o: StoredObject, late: StoredObject)
    requires WellFormed(o) && WellFormed(late)
  {
    match s.landed
    case None =>
      && Holds(s.bucket, o) && !s.earlyDelete && s.early == {} && (s.putter.HeadReady? || s.putter.PutTemporary? || s.putter.PutRaised?)
      && forall i | 0 <= i < |s.workers| :: WorkerInv(key, s.workers[i], s.bucket, o)
    case Some(ready) =>
      && (s.putter.PutDone? || s.putter.PutRaised?) && (ready == None || ready == Some(o))
      && (ready == None ==> LandedFirst(key, s, o, late))
      && (ready == Some(o) && o != late ==> LandedSecond(key, s, o, late))
      && (ready == Some(o) && o == late ==> s.bucket.ready == Some(late))
  }

  lemma StartHolds(key: string, b: Bucket, n: nat, o: StoredObject, late: StoredObject)
    requires WellFormed(o) && WellFormed(late) && Holds(b, o)
    ensures RaceInv(key, Start(b, n), o, late)
  {
  }

  lemma PutKeeps(key: string, s: Race, fault: Fault, o: StoredObject, late: StoredObject)
    requires IsUpload(o) && IsUpload(late) && WellFormed(o) && WellFormed(late) && RaceInv(key, s, o, late)
    ensures RaceInv(key, Next(key, late, s, Put(fault)), o, late)
  {
  }

  lemma PromoterKeepsBefore(key: string, s: Race, i: nat, fault: Fault, o: StoredObject, late: StoredObject)
    requires WellFormed(o) && WellFormed(late) && RaceInv(key, s, o, late) && s.landed.None?
    ensures RaceInv(key, Next(key, late, s, Promoter(i, fault)), o, late)
  {
    if i < |s.workers| {
      StepKeepsInv(key, s.workers[i], s.bucket, fault, o);
    }
  }

  lemma PromoterKeepsFirst(key: string, s: Race, i: nat, fault: Fault, o: StoredObject, late: StoredObject)
    requires WellFormed(o) && WellFormed(late) && RaceInv(key, s, o, late) && s.landed == Some(None)
    ensures RaceInv(key, Next(key, late, s, Promoter(i, fault)), o, late)
  {
  }

  lemma PromoterKeepsSecond(key: string, s: Race, i: nat, fault: Fault, o: StoredObject, late: StoredObject)
    requires IsUpload(o) && IsUpload(late) && WellFormed(o) && WellFormed(late) && RaceInv(key, s, o, late) && s.landed == Some(Some(o))
    ensures RaceInv(key, Next(key, late, s, Promoter(i, fault)), o, late)
  {
    SameUploads(key, late, o);
  }

  lemma {:induction false} RunKeeps(key: string, s: Race, moves: seq<Move>, o: StoredObject, late: StoredObject)
    requires IsUpload(o) && IsUpload(late) && WellFormed(o) && WellFormed(late) && RaceInv(key, s, o, late)
    ensures RaceInv(key, Run(key, late, s, moves), o, late)
    decreases |moves|
  {
    hide RaceInv, Next, IsUpload, WellFormed;
    if moves != [] {
      MoveKeeps(key, s, moves[0], o, late);
      RunKeeps(key, Next(key, late, s, moves[0]), moves[1..], o, late);
    }
  }

  lemma MoveKeeps(key: string, s: Race, m: Move, o: StoredObject, late: StoredObject)
    requires IsUpload(o) && IsUpload(late) && WellFormed(o) && WellFormed(late) && RaceInv(key, s, o, late)
    ensures RaceInv(key, Next(key, late, s, m), o, late)
  {
    hide Holds, Step, WellFormed, IsUpload;
    match m
    case Put(fault) => PutKeeps(key, s, fault, o, late);
    case Again(i) =>
    case Promoter(i, fault) =>
      if s.landed.None? {
        PromoterKeepsBefore(key, s, i, fault, o, late);
      } else if s.landed.value.None? {
        PromoterKeepsFirst(key, s, i, fault, o, late);
      } else if o != late {
        PromoterKeepsSecond(key, s, i, fault, o, late);
      } else {
        PromoterKeepsReady(key, s, i, fault);
      }
  }

  lemma PromoterKeepsReady(key: string, s: Race, i: nat, fault: Fault)
    requires s.bucket.ready.Some?
    ensures Next(key, s.bucket.ready.value, s, Promoter(i, fault)).bucket.ready == s.bucket.ready
  {
  }

  /**
   * When a late payload is lost: in any run of one put and any number of promotions, once its PUT has taken
   * effect, the payload is gone if and only if ready already held something else at that moment and a promotion
   * that had read the temporary object before has deleted it since. A payload that lands while ready is still
   * absent is never lost.
   */
  lemma LatePayloadIsLostExactlyWhen(key: string, b: Bucket, n: nat, moves: seq<Move>, o: StoredObject, late: StoredObject)
    requires IsUpload(o) && IsUpload(late) && WellFormed(o) && Holds(b, o)
    requires Run(key, late, Start(b, n), moves).landed.Some?
    ensures var s := Run(key, late, Start(b, n), moves);
      Lost(s, late) <==> s.landed.value.Some? && s.landed.value != Some(late) && s.earlyDelete
  {
    SameUploads(key, o, late);
    StartHolds(key, b, n, o, late);
    RunKeeps(key, Start(b, n), moves, o, late);
  }

  /** Until the PUT takes effect, and for good when ready held it by then, the original content is not lost either. */
  lemma OriginalIsKept(key: string, b: Bucket, n: nat, moves: seq<Move>, o: StoredObject, late: StoredObject)
    requires IsUpload(o) && IsUpload(late) && WellFormed(o) && Holds(b, o)
    ensures var s := Run(key, late, Start(b, n), moves);
      s.landed != Some(None) ==> s.bucket.ready == Some(o) || (s.landed.None? && s.bucket.temporary == Some(o))
  {
    SameUploads(key, o, late);
    StartHolds(key, b, n, o, late);
    RunKeeps(key, Start(b, n), moves, o, late);
  }

  // ----- Whether the payload can be lost, at the moment its PUT is sent -----

  /** A worker that has read the original and finds it ready deletes, when it is left alone. */
  lemma {:induction false} ReaderDeletes(key: string, s: Race, i: nat, o: StoredObject, late: StoredObject) returns (more: seq<Move>)
    requires WellFormed(o) && o != late && s.bucket.ready == Some(o)
    requires i < |s.workers| && HasRead(s.workers[i]) && Reads(s.workers[i], TemporaryStat(key, o))
    ensures Lost(Run(key, late, s, more), late)
    decreases s.workers[i].Remaining()
  {
    var step := Promoter(i, NoFault);
    var next := Next(key, late, s, step);
    if s.workers[i].DeleteTemporary? {
      more := [step] + [];
      NothingMoves(key, late, next);
      RunUnfolds(key, late, s, step, []);
    } else {
      var rest := ReaderDeletes(key, next, i, o, late);
      more := [step] + rest;
      RunUnfolds(key, late, s, step, rest);
    }
  }

  /** When nobody has read the temporary object before the PUT, nobody becomes early later. */
  lemma {:induction false} NobodyIsEarly(key: string, s: Race, moves: seq<Move>, late: StoredObject)
    requires s.landed.Some? && (s.putter.PutDone? || s.putter.PutRaised?) && s.early == {} && !s.earlyDelete
    ensures var r := Run(key, late, s, moves); r.landed == s.landed && !r.earlyDelete
    decreases |moves|
  {
    hide Step;
    if moves != [] {
      NobodyIsEarly(key, Next(key, late, s, moves[0]), moves[1..], late);
    }
  }

  lemma {:induction false} LandedStays(key: string, s: Race, moves: seq<Move>, late: StoredObject)
    requires s.putter.PutDone? || s.putter.PutRaised?
    ensures Run(key, late, s, moves).landed == s.landed
    decreases |moves|
  {
    hide Step;
    if moves != [] {
      LandedStays(key, Next(key, late, s, moves[0]), moves[1..], late);
    }
  }

  /** Some promotion is under way that has read the temporary object. */
  ghost predicate SomeReader(s: Race) { exists i: nat :: i < |s.workers| && HasRead(s.workers[i]) }

  lemma NoReaderNoLoss(key: string, s: Race, fault: Fault, more: seq<Move>, o: StoredObject, late: StoredObject)
    requires IsUpload(o) && IsUpload(late) && WellFormed(o) && WellFormed(late) && RaceInv(key, s, o, late)
    requires s.putter.PutTemporary? && TakesEffect(fault)
    requires s.bucket.ready.None? || s.bucket.ready == Some(late) || !SomeReader(s)
    ensures !Lost(Run(key, late, Next(key, late, s, Put(fault)), more), late)
  {
    hide Run, IsUpload, StatOf;
    var t := Next(key, late, s, Put(fault));
    PutKeeps(key, s, fault, o, late);
    RunKeeps(key, t, more, o, late);
    LandedStays(key, t, more, late);
    if !SomeReader(s) {
      NobodyIsEarly(key, t, more, late);
    }
  }

  /**
   * Whether a late payload can be lost is decided when its PUT takes effect: some continuation loses it if and only
   * if ready holds something else and a promotion is under way that has read the temporary object already.
   */
  lemma LossCanFollowExactlyWhen(key: string, b: Bucket, n: nat, moves: seq<Move>, fault: Fault, o: StoredObject, late: StoredObject)
    requires IsUpload(o) && IsUpload(late) && WellFormed(o) && Holds(b, o)
    requires Run(key, late, Start(b, n), moves).putter.PutTemporary? && TakesEffect(fault)
    ensures var s := Run(key, late, Start(b, n), moves);
      (exists more :: Lost(Run(key, late, Next(key, late, s, Put(fault)), more), late)) <==>
      s.bucket.ready.Some? && s.bucket.ready != Some(late) && SomeReader(s)
  {
    hide Run, IsUpload, StatOf, Lost, Holds;
    SameUploads(key, o, late);
    StartHolds(key, b, n, o, late);
    RunKeeps(key, Start(b, n), moves, o, late);
    var s := Run(key, late, Start(b, n), moves);
    var t := Next(key, late, s, Put(fault));
    if s.bucket.ready.Some? && s.bucket.ready != Some(late) && SomeReader(s) {
      var i: nat :| i < |s.workers| && HasRead(s.workers[i]);
      ReadersHaveReadOriginal(key, s, i, o, late);
      var more := ReaderDeletes(key, t, i, o, late);
      assert Lost(Run(key, late, t, more), late);
    } else {
      forall more
        ensures !Lost(Run(key, late, t, more), late)
      {
        NoReaderNoLoss(key, s, fault, more, o, late);
      }
    }
  }

  lemma ReadersHaveReadOriginal(key: string, s: Race, i: nat, o: StoredObject, late: StoredObject)
    requires WellFormed(o) && WellFormed(late) && RaceInv(key, s, o, late) && s.putter.PutTemporary?
    requires i < |s.workers| && HasRead(s.workers[i]) && s.bucket.ready.Some?
    ensures Reads(s.workers[i], TemporaryStat(key, o)) && s.bucket.ready == Some(o)
  {
  }

  /** HEAD before the copy, PUT after it: the promotion and the put both succeed, and the payload of the put is gone. */
  const OVERLAP: seq<Move> :=
    [Put(NoFault), Promoter(0, NoFault), Promoter(0, NoFault), Promoter(0, NoFault), Put(NoFault), Promoter(0, NoFault), Promoter(0, NoFault)]

  lemma OverlapSteps(key: string, o: StoredObject, late: StoredObject)
    requires IsUpload(o) && IsUpload(late) && o != late
    ensures WellFormed(o)
    ensures var source, both, step := TemporaryStat(key, o), Bucket(Some(o), Some(o)), Promoter(0, NoFault);
            var s1 := Race(Bucket(Some(o), None), [StatTemporary], PutTemporary, None, {}, false);
            var s5 := Race(Bucket(Some(late), Some(o)), [StatAfterCopy(source)], PutDone, Some(Some(o)), {0}, false);
      && Next(key, late, Start(Bucket(Some(o), None), 1), Put(NoFault)) == s1
      && Next(key, late, s1, step) == s1.(workers := [StatReady(Some(source))])
      && Next(key, late, s1.(workers := [StatReady(Some(source))]), step) == s1.(workers := [CopyIfAbsent(source)])
      && Next(key, late, s1.(workers := [CopyIfAbsent(source)]), step) == s1.(workers := [StatAfterCopy(source)], bucket := both)
      && Next(key, late, s1.(workers := [StatAfterCopy(source)], bucket := both), Put(NoFault)) == s5
      && Next(key, late, s5, step) == s5.(workers := [DeleteTemporary(ReadyStat(key, o))])
      && Next(key, late, s5.(workers := [DeleteTemporary(ReadyStat(key, o))]), step)
         == Race(Bucket(None, Some(o)), [Returned(ReadyStat(key, o))], PutDone, Some(Some(o)), {}, true)
  {
    SameUploads(key, o, o);
    assert Start(Bucket(Some(o), None), 1).workers == [StatTemporary];
  }

  lemma RunUnfolds(key: string, late: StoredObject, s: Race, m: Move, rest: seq<Move>)
    ensures Run(key, late, s, [m] + rest) == Run(key, late, Next(key, late, s, m), rest)
  {
    assert ([m] + rest)[1..] == rest;
  }

  lemma OverlappingPutIsLost(key: string, o: StoredObject, late: StoredObject)
    requires IsUpload(o) && IsUpload(late) && o != late
    ensures WellFormed(o)
    ensures var s := Run(key, late, Start(Bucket(Some(o), None), 1), OVERLAP);
      Lost(s, late) && s.putter == PutDone && s.workers == [Returned(ReadyStat(key, o))] && s.bucket == Bucket(None, Some(o))
  {
    hide Next, Run, IsUpload, StatOf;
    OverlapSteps(key, o, late);
    var source, both, step, put := TemporaryStat(key, o), Bucket(Some(o), Some(o)), Promoter(0, NoFault), Put(NoFault);
    var s1 := Race(Bucket(Some(o), None), [StatTemporary], PutTemporary, None, {}, false);
    var s5 := Race(Bucket(Some(late), Some(o)), [StatAfterCopy(source)], PutDone, Some(Some(o)), {0}, false);
    var r1 := [step] + [];
    var r2 := [step] + r1;
    var r3 := [put] + r2;
    var r4 := [step] + r3;
    var r5 := [step] + r4;
    var r6 := [step] + r5;
    assert OVERLAP == [put] + r6;
    RunUnfolds(key, late, Start(Bucket(Some(o), None), 1), put, r6);
    RunUnfolds(key, late, s1, step, r5);
    RunUnfolds(key, late, s1.(workers := [StatReady(Some(source))]), step, r4);
    RunUnfolds(key, late, s1.(workers := [CopyIfAbsent(source)]), step, r3);
    RunUnfolds(key, late, s1.(workers := [StatAfterCopy(source)], bucket := both), put, r2);
    RunUnfolds(key, late, s5, step, r1);
    RunUnfolds(key, late, s5.(workers := [DeleteTemporary(ReadyStat(key, o))]), step, []);
    NothingMoves(key, late, Race(Bucket(None, Some(o)), [Returned(ReadyStat(key, o))], PutDone, Some(Some(o)), {}, true));
  }

  lemma NothingMoves(key: string, late: StoredObject, s: Race)
    ensures Run(key, late, s, []) == s
  {
  }
}
