/**
 * Promotion of one temporary object to ready on an S3-compatible bucket.
 *
 * `promote` is a sequence of separate requests. Here each request is one step of a worker, any
 * number of workers interleave their steps, and every request may fail before or after taking
 * effect. A crashed worker is one that is never scheduled again.
 */
module S3Promotion {
  import opened Prelude
  import opened Artifacts

  const METADATA_VERSION := "1"

  datatype Metadata = Metadata(
    version: string,
    checksum: Option<Digest>,
    size: Option<nat>,
    contentTypePresent: Option<bool>,
    contentType: Option<string>)

  datatype StoredObject = StoredObject(body: Bytes, metadata: Metadata)

  /** The object `put` uploads for a payload. */
  function Uploaded(payload: Bytes, contentType: Option<string>): StoredObject {
    StoredObject(payload,
                 Metadata(METADATA_VERSION, Some(Sha256(payload)), Some(|payload|), Some(contentType.Some?), contentType))
  }

  /** `stat` on the answer to a HEAD request. */
  function StatOf(ref: ArtifactRef, found: Option<StoredObject>): Result<ArtifactStat, StoreError> {
    match found
    case None => Err(KeyError)
    case Some(o) =>
      var m := o.metadata;
      if m.version != METADATA_VERSION then Err(ContractError)
      else if m.size.None? || m.contentTypePresent.None? then Err(ContractError)
      else if m.size.value != |o.body| then Err(ContractError)
      else if m.checksum.None? then Err(ContractError)
      else Ok(ArtifactStat(ref, |o.body|, m.checksum.value, if m.contentTypePresent.value then m.contentType else None))
  }

  /** What `put` writes is what `stat` reports. */
  lemma UploadedIsDescribed(ref: ArtifactRef, payload: Bytes, contentType: Option<string>)
    ensures Uploaded(payload, contentType)
         == StoredObject(payload, Metadata("1", Some(Sha256(payload)), Some(|payload|), Some(contentType.Some?), contentType))
    ensures StatOf(ref, Some(Uploaded(payload, contentType))) == Ok(Describe(ref, payload, contentType))
  {
  }

  /** What the answer of `stat` means: KeyError exactly for a missing object, and a stat exactly for what was recorded. */
  lemma StatSaysExactly(ref: ArtifactRef, found: Option<StoredObject>)
    ensures StatOf(ref, found) == Err(KeyError) <==> found.None?
    ensures forall s :: StatOf(ref, found) == Ok(s) <==>
      && found.Some? && s.ref == ref && found.value.metadata.version == "1"
      && found.value.metadata.size == Some(|found.value.body|) && s.sizeBytes == |found.value.body|
      && found.value.metadata.checksum == Some(s.checksum)
      && found.value.metadata.contentTypePresent.Some?
      && s.contentType == (if found.value.metadata.contentTypePresent.value then found.value.metadata.contentType else None)
  {
  }

  // ----- One worker: the requests of `promote`, one by one -----

  /** How one request goes wrong. `Conflict` is a 409 answer without effect. */
  datatype Fault = NoFault | FailedBefore | FailedAfter | Conflict

  datatype Bucket = Bucket(temporary: Option<StoredObject>, ready: Option<StoredObject>)

  /** A worker named by the request it sends next, or by how its call ended. */
  datatype Worker =
    | StatTemporary
    | StatReady(temporary: Option<ArtifactStat>)
    | CopyIfAbsent(source: ArtifactStat)
    | StatAfterConflict(source: ArtifactStat)
    | StatAfterCopy(source: ArtifactStat)
    | DeleteTemporary(promoted: ArtifactStat)
    | Returned(stat: ArtifactStat)
    | Raised(error: StoreError)
  {
    predicate Finished() { Returned? || Raised? }

    /** Requests that may still follow. */
    function Remaining(): nat {
      match this
      case StatTemporary => 5
      case StatReady(_) => 4
      case CopyIfAbsent(_) => 3
      case StatAfterConflict(_) => 2
      case StatAfterCopy(_) => 2
      case DeleteTemporary(_) => 1
      case _ => 0
    }
  }

  /** `_require_same_artifact` before the final delete. */
  function CheckedDelete(source: ArtifactStat, ready: ArtifactStat): Worker {
    if SameArtifact(source, ready) then DeleteTemporary(ready) else Raised(ContractError)
  }

  function Step(key: string, w: Worker, b: Bucket, fault: Fault): (Worker, Bucket) {
    match w
    case StatTemporary =>
      if fault != NoFault then (Raised(RequestFailed), b)
      else (match StatOf(TemporaryRef(key), b.temporary)
            case Ok(t) => StatReady(Some(t))
            case Err(KeyError) => StatReady(None)
            case Err(e) => Raised(e), b)
    case StatReady(temporary) =>
      if fault != NoFault then (Raised(RequestFailed), b)
      else (match StatOf(ReadyRef(key), b.ready)
            case Ok(r) => if temporary.None? then Returned(r) else CheckedDelete(temporary.value, r)
            case Err(KeyError) => if temporary.None? then Raised(KeyError) else CopyIfAbsent(temporary.value)
            case Err(e) => Raised(e), b)
    case CopyIfAbsent(source) =>
      if fault == FailedBefore then (Raised(RequestFailed), b)
      else if fault == Conflict then (StatAfterConflict(source), b)
      else if b.ready.Some? then (if fault == NoFault then StatAfterConflict(source) else Raised(RequestFailed), b)
      else if b.temporary.None? then (Raised(RequestFailed), b)
      else (if fault == NoFault then StatAfterCopy(source) else Raised(RequestFailed), b.(ready := b.temporary))
    case StatAfterConflict(source) =>
      if fault != NoFault then (Raised(RequestFailed), b)
      else (match StatOf(ReadyRef(key), b.ready)
            case Ok(r) => CheckedDelete(source, r)
            case Err(KeyError) => Raised(RequestFailed)
            case Err(e) => Raised(e), b)
    case StatAfterCopy(source) =>
      if fault != NoFault then (Raised(RequestFailed), b)
      else (match StatOf(ReadyRef(key), b.ready)
            case Ok(r) => CheckedDelete(source, r)
            case Err(e) => Raised(e), b)
    case DeleteTemporary(promoted) =>
      if fault == FailedBefore || fault == Conflict then (Raised(RequestFailed), b)
      else (if fault == NoFault then Returned(promoted) else Raised(RequestFailed), b.(temporary := None))
    case _ => (w, b)
  }

  /** `put` by the request it sends next, or by how it ended. */
  datatype Putter = HeadReady | PutTemporary | PutDone | PutRaised

  predicate TakesEffect(fault: Fault) { fault == NoFault || fault == FailedAfter }

  function PutStep(late: StoredObject, p: Putter, b: Bucket, fault: Fault): (Putter, Bucket) {
    match p
    case HeadReady => (if fault != NoFault || b.ready.Some? then PutRaised else PutTemporary, b)
    case PutTemporary =>
      if !TakesEffect(fault) then (PutRaised, b)
      else (if fault == NoFault then PutDone else PutRaised, b.(temporary := Some(late)))
    case _ => (p, b)
  }

  // ----- Many workers -----

  /** The shared bucket, every worker, and a log of how promote calls ended and of ready-object writes. */
  datatype System = System(bucket: Bucket, workers: seq<Worker>, outcomes: seq<Worker>, readyWrites: nat)

  /** Let a worker send its next request, or let one that finished call `promote` again. */
  datatype Action = Advance(worker: nat, fault: Fault) | Retry(worker: nat)

  function Next(key: string, s: System, a: Action): System {
    if a.worker >= |s.workers| then s
    else match a
      case Retry(i) =>
        if s.workers[i].Finished() then s.(workers := s.workers[i := StatTemporary]) else s
      case Advance(i, fault) =>
        if s.workers[i].Finished() then s else
        var (w, b) := Step(key, s.workers[i], s.bucket, fault);
        System(b,
               s.workers[i := w],
               if w.Finished() then s.outcomes + [w] else s.outcomes,
               if b.ready != s.bucket.ready then s.readyWrites + 1 else s.readyWrites)
  }

  function Run(key: string, s: System, actions: seq<Action>): System {
    if actions == [] then s
    else Next(key, Run(key, s, actions[..|actions| - 1]), actions[|actions| - 1])
  }

  function Start(bucket: Bucket, workers: nat): System {
    System(bucket, seq(workers, _ => StatTemporary), [], 0)
  }

  /** The buckets an artifact with content `o` can be in: before, during and after its promotion. */
  predicate Holds(b: Bucket, o: StoredObject) {
    && (b.temporary == None || b.temporary == Some(o))
    && (b.ready == None || b.ready == Some(o))
    && (b.temporary == None ==> b.ready == Some(o))
  }

  predicate WellFormed(o: StoredObject) { StatOf(ReadyRef(""), Some(o)).Ok? }

  function ReadyStat(key: string, o: StoredObject): ArtifactStat
    requires WellFormed(o)
  {
    StatOf(ReadyRef(key), Some(o)).value
  }

  function TemporaryStat(key: string, o: StoredObject): ArtifactStat
    requires WellFormed(o)
  {
    StatOf(TemporaryRef(key), Some(o)).value
  }

  predicate WorkerInv(key: string, w: Worker, b: Bucket, o: StoredObject)
    requires WellFormed(o)
  {
    var source := TemporaryStat(key, o);
    match w
    case StatTemporary => true
    case StatReady(t) => if t.Some? then t.value == source else b.temporary.None?
    case CopyIfAbsent(t) => t == source
    case StatAfterConflict(t) => t == source
    case StatAfterCopy(t) => t == source && b.ready.Some?
    case DeleteTemporary(r) => r == ReadyStat(key, o) && b.ready.Some?
    case Returned(r) => r == ReadyStat(key, o) && b.temporary.None?
    case Raised(e) => e == RequestFailed
  }

  predicate Inv(key: string, s: System, o: StoredObject)
    requires WellFormed(o)
  {
    && Holds(s.bucket, o)
    && (forall i | 0 <= i < |s.workers| :: WorkerInv(key, s.workers[i], s.bucket, o))
    && (forall i | 0 <= i < |s.outcomes| :: s.outcomes[i].Finished() && WorkerInv(key, s.outcomes[i], s.bucket, o))
  }

  lemma StepKeepsInv(key: string, w: Worker, b: Bucket, fault: Fault, o: StoredObject)
    requires WellFormed(o) && Holds(b, o) && WorkerInv(key, w, b, o)
    ensures var (w', b') := Step(key, w, b, fault);
      && Holds(b', o) && WorkerInv(key, w', b', o)
      && (b.ready.Some? ==> b'.ready == b.ready)
      && (b.temporary.Some? && b'.temporary.None? ==> b.ready == Some(o))
  {
  }

  lemma NextKeepsInv(key: string, s: System, a: Action, o: StoredObject)
    requires WellFormed(o) && Inv(key, s, o)
    ensures var s' := Next(key, s, a);
      && Inv(key, s', o)
      && (s.bucket.ready.Some? ==> s'.bucket.ready == s.bucket.ready)
      && (s.bucket.temporary.Some? && s'.bucket.temporary.None? ==> s.bucket.ready == Some(o))
      && s'.readyWrites - s.readyWrites == (if s.bucket.ready.None? && s'.bucket.ready.Some? then 1 else 0)
  {
    if a.worker < |s.workers| && a.Advance? {
      StepKeepsInv(key, s.workers[a.worker], s.bucket, a.fault, o);
    }
  }

  lemma {:induction false} RunKeepsInv(key: string, s: System, actions: seq<Action>, o: StoredObject)
    requires WellFormed(o) && Inv(key, s, o)
    ensures var s' := Run(key, s, actions);
      && Inv(key, s', o)
      && (s.bucket.ready.Some? ==> s'.bucket.ready == s.bucket.ready)
      && s'.readyWrites - s.readyWrites == (if s.bucket.ready.None? && s'.bucket.ready.Some? then 1 else 0)
  {
    if actions != [] {
      var init, last := actions[..|actions| - 1], actions[|actions| - 1];
      RunKeepsInv(key, s, init, o);
      NextKeepsInv(key, Run(key, s, init), last, o);
    }
  }

  /**
   * No loss, written once: from any bucket that holds the artifact, whatever any number of workers do
   * and however their requests fail, the content stays available, the ready object is written at most
   * once and never changes, and the temporary object goes only when an equal ready object exists.
   */
  lemma PromotionLosesNothing(key: string, b: Bucket, n: nat, actions: seq<Action>, a: Action, o: StoredObject)
    requires WellFormed(o) && Holds(b, o)
    ensures var s := Run(key, Start(b, n), actions);
            var s' := Next(key, s, a);
      && (s.bucket.temporary == Some(o) || s.bucket.ready == Some(o))
      && (s.bucket.temporary == None || s.bucket.temporary == Some(o))
      && (s.bucket.ready == None || s.bucket.ready == Some(o))
      && s.readyWrites <= 1
      && (s.bucket.ready.Some? ==> s'.bucket.ready == s.bucket.ready)
      && (s.bucket.temporary.Some? && s'.bucket.temporary.None? ==> s.bucket.ready == Some(o))
  {
    RunKeepsInv(key, Start(b, n), actions, o);
    NextKeepsInv(key, Run(key, Start(b, n), actions), a, o);
  }

  /**
   * Readers agree: every promote call of every worker, retries included, either failed on a request or
   * returned the one stat of the ready object. None raises KeyError or a contract error. Once a call has
   * returned, the object is ready and nothing is temporary any more.
   */
  lemma PromotionsAgree(key: string, b: Bucket, n: nat, actions: seq<Action>, i: nat, o: StoredObject)
    requires WellFormed(o) && Holds(b, o)
    requires i < |Run(key, Start(b, n), actions).outcomes|
    ensures var s := Run(key, Start(b, n), actions);
      || s.outcomes[i] == Raised(RequestFailed)
      || (s.outcomes[i] == Returned(ReadyStat(key, o)) && s.bucket == Bucket(None, Some(o)))
  {
    RunKeepsInv(key, Start(b, n), actions, o);
  }

  /** Not stopped by anything: nothing has raised, and whoever lost the race for the copy finds ready there. */
  predicate Undisturbed(w: Worker, b: Bucket) { !w.Raised? && (w.StatAfterConflict? ==> b.ready.Some?) }

  /** When no request goes wrong no call fails, however many workers race: all that end have returned. */
  lemma {:induction false} NoFaultsNoFailures(key: string, b: Bucket, n: nat, actions: seq<Action>, o: StoredObject)
    requires WellFormed(o) && Holds(b, o)
    requires forall a | a in actions :: a.Advance? ==> a.fault == NoFault
    ensures var s := Run(key, Start(b, n), actions);
      && (forall i | 0 <= i < |s.workers| :: Undisturbed(s.workers[i], s.bucket))
      && (forall i | 0 <= i < |s.outcomes| :: s.outcomes[i] == Returned(ReadyStat(key, o)))
  {
    if actions != [] {
      var init, a := actions[..|actions| - 1], actions[|actions| - 1];
      NoFaultsNoFailures(key, b, n, init, o);
      RunKeepsInv(key, Start(b, n), init, o);
      var s := Run(key, Start(b, n), init);
      assert a in actions;
      if a.worker < |s.workers| && a.Advance? {
        UndisturbedStep(key, s.workers[a.worker], s.bucket, o);
      }
    }
  }

  lemma UndisturbedStep(key: string, w: Worker, b: Bucket, o: StoredObject)
    requires WellFormed(o) && Holds(b, o) && WorkerInv(key, w, b, o) && Undisturbed(w, b)
    ensures var (w', b') := Step(key, w, b, NoFault);
      Undisturbed(w', b') && (b.ready.Some? ==> b'.ready.Some?) && (w'.Returned? ==> w' == Returned(ReadyStat(key, o)))
  {
  }

  // ----- A ready object with other content is never touched -----

  predicate ConflictInv(key: string, s: System, b: Bucket, o: StoredObject)
    requires WellFormed(o)
  {
    var source := TemporaryStat(key, o);
    && s.bucket == b
    && (forall i | 0 <= i < |s.workers| :: ConflictWorker(s.workers[i], source))
    && (forall i | 0 <= i < |s.outcomes| :: s.outcomes[i].Raised?)
  }

  predicate ConflictWorker(w: Worker, source: ArtifactStat) {
    match w
    case StatTemporary => true
    case StatReady(t) => t == Some(source)
    case CopyIfAbsent(t) => t == source
    case StatAfterConflict(t) => t == source
    case Raised(_) => true
    case _ => false
  }

  lemma {:induction false} ConflictRunKeepsInv(key: string, b: Bucket, n: nat, actions: seq<Action>, o: StoredObject, r: StoredObject)
    requires WellFormed(o) && WellFormed(r) && b == Bucket(Some(o), Some(r))
    requires !SameArtifact(ReadyStat(key, o), ReadyStat(key, r))
    ensures ConflictInv(key, Run(key, Start(b, n), actions), b, o)
  {
    if actions != [] {
      var init := actions[..|actions| - 1];
      ConflictRunKeepsInv(key, b, n, init, o, r);
      var s, a := Run(key, Start(b, n), init), actions[|actions| - 1];
      if a.worker < |s.workers| && a.Advance? {
        var (w, b') := Step(key, s.workers[a.worker], s.bucket, a.fault);
        assert w == StatTemporary || w.Raised? || ConflictWorker(w, TemporaryStat(key, o));
      }
    }
  }

  /** When ready already holds something else, no run changes the bucket and every call that ends raises. */
  lemma ConflictingReadyIsKept(key: string, n: nat, actions: seq<Action>, o: StoredObject, r: StoredObject)
    requires WellFormed(o) && WellFormed(r)
    requires !SameArtifact(ReadyStat(key, o), ReadyStat(key, r))
    ensures var s := Run(key, Start(Bucket(Some(o), Some(r)), n), actions);
      && s.bucket == Bucket(Some(o), Some(r))
      && (forall i | 0 <= i < |s.outcomes| :: s.outcomes[i].Raised?)
  {
    ConflictRunKeepsInv(key, Bucket(Some(o), Some(r)), n, actions, o, r);
  }

  // ----- One call on its own -----

  /** A worker left alone with one fault per request (none once `faults` is used up), run to its end. */
  function Solo(key: string, w: Worker, b: Bucket, faults: seq<Fault>): (r: (Worker, Bucket))
    requires !w.Finished()
    ensures r.0.Finished()
    decreases w.Remaining()
  {
    var (w', b') := Step(key, w, b, if faults == [] then NoFault else faults[0]);
    if w'.Finished() then (w', b') else Solo(key, w', b', if faults == [] then [] else faults[1..])
  }

  /**
   * Retry completes: whatever an earlier run left behind, one undisturbed call returns the ready stat
   * with the original content ready and nothing temporary; calling again changes nothing.
   */
  lemma RetryCompletes(key: string, b: Bucket, n: nat, actions: seq<Action>, o: StoredObject)
    requires WellFormed(o) && Holds(b, o)
    ensures var done := Bucket(None, Some(o));
      && Solo(key, StatTemporary, Run(key, Start(b, n), actions).bucket, []) == (Returned(ReadyStat(key, o)), done)
      && Solo(key, StatTemporary, done, []) == (Returned(ReadyStat(key, o)), done)
  {
    RunKeepsInv(key, Start(b, n), actions, o);
    SoloCompletes(key, Run(key, Start(b, n), actions).bucket, o);
    SoloCompletes(key, Bucket(None, Some(o)), o);
  }

  lemma SoloCompletes(key: string, b: Bucket, o: StoredObject)
    requires WellFormed(o) && Holds(b, o)
    ensures Solo(key, StatTemporary, b, []) == (Returned(ReadyStat(key, o)), Bucket(None, Some(o)))
  {
    var (w1, b1) := Step(key, StatTemporary, b, NoFault);
    var (w2, b2) := Step(key, w1, b1, NoFault);
    if !w2.Finished() {
      var (w3, b3) := Step(key, w2, b2, NoFault);
      assert w3 == Returned(ReadyStat(key, o)) || Solo(key, w3, b3, []) == (Returned(ReadyStat(key, o)), Bucket(None, Some(o)));
    }
    assert Solo(key, StatTemporary, b, []) == Solo(key, w1, b1, []);
  }

  /** How the `k`-th request goes wrong. */
  function FaultAt(faults: seq<Fault>, k: nat): Fault { if k < |faults| then faults[k] else NoFault }

  /** The first `n` requests are answered. */
  predicate Answered(faults: seq<Fault>, n: nat) { forall k | 0 <= k < n :: FaultAt(faults, k) == NoFault }

  lemma SoloUnfolds(key: string, w: Worker, b: Bucket, faults: seq<Fault>)
    requires !w.Finished()
    ensures var (w', b') := Step(key, w, b, FaultAt(faults, 0));
      Solo(key, w, b, faults) == (if w'.Finished() then (w', b') else Solo(key, w', b', Later(faults)))
  {
  }

  function Later(faults: seq<Fault>): (rest: seq<Fault>)
    ensures forall k: nat :: FaultAt(rest, k) == FaultAt(faults, k + 1)
  {
    if faults == [] then [] else faults[1..]
  }

  /** What a call left alone has come to, from the bucket it found. */
  predicate Ahead(key: string, before: Bucket, w: Worker, b: Bucket) {
    var source := StatOf(TemporaryRef(key), before.temporary);
    match w
    case StatTemporary => b == before
    case StatReady(t) => b == before && (if t.Some? then source == Ok(t.value) else before.temporary.None?)
    case CopyIfAbsent(t) => b == before && source == Ok(t) && before.ready.None?
    case StatAfterConflict(t) => b == before && source == Ok(t) && before.ready.None?
    case StatAfterCopy(t) => b == Bucket(before.temporary, before.temporary) && source == Ok(t) && before.ready.None?
    case DeleteTemporary(r) =>
      && b.temporary == before.temporary && b.ready == Promoted(before) && StatOf(ReadyRef(key), b.ready) == Ok(r)
      && source.Ok? && SameArtifact(source.value, r)
    case _ => EndsWell(key, before, w, b)
  }

  /** What is to be ready in the end. */
  function Promoted(before: Bucket): Option<StoredObject> { if before.ready.Some? then before.ready else before.temporary }

  /**
   * How a call may end. It returns only with nothing temporary left and with the stat of what is ready: what was ready
   * before, or else what was temporary. It refuses, changing nothing, and with KeyError only when there is nothing; and a
   * request that failed leaves the bucket as it was, copied, or promoted.
   */
  predicate EndsWell(key: string, before: Bucket, w: Worker, after: Bucket) {
    var source := StatOf(TemporaryRef(key), before.temporary);
    match w
    case Returned(stat) =>
      && after == Bucket(None, Promoted(before)) && StatOf(ReadyRef(key), after.ready) == Ok(stat)
      && (before.temporary.Some? ==> source.Ok? && SameArtifact(source.value, stat))
    case Raised(KeyError) => before == after == Bucket(None, None)
    case Raised(ContractError) => after == before
    case Raised(RequestFailed) =>
      || after == before || after == Bucket(before.temporary, Promoted(before))
      || (after == Bucket(None, Promoted(before)) && source.Ok? && StatOf(ReadyRef(key), after.ready).Ok?
          && SameArtifact(source.value, StatOf(ReadyRef(key), after.ready).value))
    case _ => false
  }

  lemma StepStaysAhead(key: string, before: Bucket, w: Worker, b: Bucket, fault: Fault)
    requires Ahead(key, before, w, b) && !w.Finished()
    ensures var (w', b') := Step(key, w, b, fault); Ahead(key, before, w', b')
  {
  }

  lemma {:induction false} SoloEndsWell(key: string, before: Bucket, w: Worker, b: Bucket, faults: seq<Fault>)
    requires Ahead(key, before, w, b) && !w.Finished()
    ensures var (r, after) := Solo(key, w, b, faults); EndsWell(key, before, r, after)
    decreases w.Remaining()
  {
    hide StatOf;
    SoloUnfolds(key, w, b, faults);
    StepStaysAhead(key, before, w, b, FaultAt(faults, 0));
    var (w', b') := Step(key, w, b, FaultAt(faults, 0));
    if !w'.Finished() {
      SoloEndsWell(key, before, w', b', Later(faults));
    }
  }

  /** A call on its own, whatever it finds in the bucket and however its requests fail. */
  lemma PromotionEndsWell(key: string, before: Bucket, faults: seq<Fault>)
    ensures var (r, after) := Solo(key, StatTemporary, before, faults); EndsWell(key, before, r, after)
    ensures Solo(key, StatTemporary, before, faults).0 == Raised(KeyError) <==> before == Bucket(None, None) && Answered(faults, 2)
  {
    SoloEndsWell(key, before, StatTemporary, before, faults);
    SoloUnfolds(key, StatTemporary, before, faults);
    if before == Bucket(None, None) && FaultAt(faults, 0) == NoFault {
      SoloUnfolds(key, StatReady(None), before, Later(faults));
      assert FaultAt(Later(faults), 0) == FaultAt(faults, 1);
    } else if before == Bucket(None, None) {
      assert !Answered(faults, 2);
    }
  }

  /** How many requests a promotion takes, by what it finds. */
  function Requests(before: Bucket): nat { if before.temporary.None? then 2 else if before.ready.None? then 5 else 3 }

  /**
   * A call on its own on an artifact that is there returns exactly when all its requests are answered. The copy is ready
   * exactly when it was before or its request took effect, and the temporary object is gone exactly when it was before or
   * the last request took effect.
   */
  lemma PromotesExactlyWhen(key: string, before: Bucket, faults: seq<Fault>, o: StoredObject)
    requires WellFormed(o) && Holds(before, o)
    ensures var (r, after) := Solo(key, StatTemporary, before, faults);
            var n := Requests(before);
      && r == (if Answered(faults, n) then Returned(ReadyStat(key, o)) else Raised(RequestFailed))
      && (after.ready.Some? <==> before.ready.Some? || (Answered(faults, 2) && TakesEffect(FaultAt(faults, 2))))
      && (after.temporary.None? <==> before.temporary.None? || (Answered(faults, n - 1) && TakesEffect(FaultAt(faults, n - 1))))
  {
    hide StatOf;
    var source, stat := TemporaryStat(key, o), ReadyStat(key, o);
    var both := Bucket(Some(o), Some(o));
    StatsOf(key, o);
    var f1 := Later(faults);
    SoloUnfolds(key, StatTemporary, before, faults);
    if FaultAt(faults, 0) != NoFault {
      assert !Answered(faults, 2);
    } else if before.temporary.None? {
      SoloUnfolds(key, StatReady(None), before, f1);
    } else {
      SoloUnfolds(key, StatReady(Some(source)), before, f1);
      var f2 := Later(f1);
      if FaultAt(faults, 1) != NoFault {
        assert !Answered(faults, 2);
      } else if before.ready.Some? {
        SoloUnfolds(key, DeleteTemporary(stat), both, f2);
      } else {
        CopyNeedsAnswers(key, f2, o);
        AnsweredAfterTwo(faults, 4);
        AnsweredAfterTwo(faults, 5);
      }
    }
  }

  lemma AnsweredAfterTwo(faults: seq<Fault>, n: nat)
    requires n >= 2 && FaultAt(faults, 0) == NoFault && FaultAt(faults, 1) == NoFault
    ensures Answered(faults, n) <==> Answered(Later(Later(faults)), n - 2)
    ensures FaultAt(Later(Later(faults)), n - 2) == FaultAt(faults, n)
  {
    var rest := Later(Later(faults));
    forall k: nat
      ensures FaultAt(rest, k) == FaultAt(faults, k + 2)
    {
    }
    if Answered(rest, n - 2) {
      forall k | 0 <= k < n
        ensures FaultAt(faults, k) == NoFault
      {
        if k >= 2 {
          assert FaultAt(rest, k - 2) == NoFault;
        }
      }
    }
    if Answered(faults, n) {
      forall k | 0 <= k < n - 2
        ensures FaultAt(rest, k) == NoFault
      {
        assert FaultAt(faults, k + 2) == NoFault;
      }
    }
  }

  lemma StatsOf(key: string, o: StoredObject)
    requires WellFormed(o)
    ensures StatOf(TemporaryRef(key), Some(o)) == Ok(TemporaryStat(key, o))
    ensures StatOf(ReadyRef(key), Some(o)) == Ok(ReadyStat(key, o))
    ensures SameArtifact(TemporaryStat(key, o), ReadyStat(key, o))
    ensures StatOf(TemporaryRef(key), None) == Err(KeyError) && StatOf(ReadyRef(key), None) == Err(KeyError)
  {
  }

  /** The copy, the stat after it and the delete. */
  lemma CopyNeedsAnswers(key: string, faults: seq<Fault>, o: StoredObject)
    requires WellFormed(o)
    ensures var (r, after) := Solo(key, CopyIfAbsent(TemporaryStat(key, o)), Bucket(Some(o), None), faults);
      && r == (if Answered(faults, 3) then Returned(ReadyStat(key, o)) else Raised(RequestFailed))
      && (after.ready.Some? <==> TakesEffect(FaultAt(faults, 0)))
      && (after.temporary.None? <==> Answered(faults, 2) && TakesEffect(FaultAt(faults, 2)))
  {
    hide StatOf;
    var source, stat := TemporaryStat(key, o), ReadyStat(key, o);
    var both := Bucket(Some(o), Some(o));
    StatsOf(key, o);
    SoloUnfolds(key, CopyIfAbsent(source), Bucket(Some(o), None), faults);
    if FaultAt(faults, 0) == Conflict {
      SoloUnfolds(key, StatAfterConflict(source), Bucket(Some(o), None), Later(faults));
      assert !Answered(faults, 2) && !Answered(faults, 3);
    } else if FaultAt(faults, 0) != NoFault {
      assert !Answered(faults, 2) && !Answered(faults, 3);
    } else {
      SoloUnfolds(key, StatAfterCopy(source), both, Later(faults));
      SoloUnfolds(key, DeleteTemporary(stat), both, Later(Later(faults)));
      if FaultAt(faults, 1) != NoFault {
        assert !Answered(faults, 2) && !Answered(faults, 3);
      }
    }
  }

  /**
   * No worker is ever stuck: in every reachable state each unfinished call, left alone, completes the promotion, except
   * one that was refused the copy while nothing is ready, which fails and leaves the bucket alone.
   */
  lemma AnyWorkerCompletes(key: string, b: Bucket, n: nat, actions: seq<Action>, i: nat, o: StoredObject)
    requires WellFormed(o) && Holds(b, o)
    requires i < |Run(key, Start(b, n), actions).workers| && !Run(key, Start(b, n), actions).workers[i].Finished()
    ensures var s := Run(key, Start(b, n), actions);
      Solo(key, s.workers[i], s.bucket, []) ==
      if s.workers[i].StatAfterConflict? && s.bucket.ready.None? then (Raised(RequestFailed), s.bucket)
      else (Returned(ReadyStat(key, o)), Bucket(None, Some(o)))
  {
    RunKeepsInv(key, Start(b, n), actions, o);
    var s := Run(key, Start(b, n), actions);
    AloneCompletes(key, s.workers[i], s.bucket, o);
  }

  /** A copy that is refused because ready exists, by 409 or by 412, is no failure: the promotion goes on, and completes. */
  lemma RefusedCopyCompletes(key: string, b: Bucket, n: nat, actions: seq<Action>, i: nat, o: StoredObject)
    requires WellFormed(o) && Holds(b, o) && i < |Run(key, Start(b, n), actions).workers|
    requires var s := Run(key, Start(b, n), actions); s.workers[i].CopyIfAbsent? && s.bucket.ready.Some?
    ensures var s := Run(key, Start(b, n), actions);
      forall answer | answer == NoFault || answer == Conflict ::
        Solo(key, s.workers[i], s.bucket, [answer]) == (Returned(ReadyStat(key, o)), Bucket(None, Some(o)))
  {
    RunKeepsInv(key, Start(b, n), actions, o);
    var s := Run(key, Start(b, n), actions);
    forall answer | answer == NoFault || answer == Conflict
      ensures Solo(key, s.workers[i], s.bucket, [answer]) == (Returned(ReadyStat(key, o)), Bucket(None, Some(o)))
    {
      SoloUnfolds(key, s.workers[i], s.bucket, [answer]);
      StepKeepsInv(key, s.workers[i], s.bucket, answer, o);
      var (w', b') := Step(key, s.workers[i], s.bucket, answer);
      AloneCompletes(key, w', b', o);
    }
  }

  lemma {:induction false} AloneCompletes(key: string, w: Worker, b: Bucket, o: StoredObject)
    requires WellFormed(o) && Holds(b, o) && WorkerInv(key, w, b, o) && !w.Finished()
    ensures Solo(key, w, b, []) ==
      if w.StatAfterConflict? && b.ready.None? then (Raised(RequestFailed), b) else (Returned(ReadyStat(key, o)), Bucket(None, Some(o)))
    decreases w.Remaining()
  {
    SoloUnfolds(key, w, b, []);
    StepKeepsInv(key, w, b, NoFault, o);
    var (w', b') := Step(key, w, b, NoFault);
    if !w'.Finished() {
      AloneCompletes(key, w', b', o);
    }
  }

  /** Nothing undisturbed is left open: what one call does with any two objects, and what it refuses. */
  lemma UndisturbedPromotion(key: string, before: Bucket)
    ensures var source, target := StatOf(TemporaryRef(key), before.temporary), StatOf(ReadyRef(key), before.ready);
            var (r, after) := Solo(key, StatTemporary, before, []);
      && (source == Err(KeyError) && target == Err(KeyError) ==> (r, after) == (Raised(KeyError), before))
      && (source == Err(KeyError) && target.Ok? ==> (r, after) == (Returned(target.value), before))
      && (source.Ok? && target == Err(KeyError) ==>
            (r, after) == (Returned(StatOf(ReadyRef(key), before.temporary).value), Bucket(None, before.temporary)))
      && (source.Ok? && target.Ok? && SameArtifact(source.value, target.value) ==> (r, after) == (Returned(target.value), Bucket(None, before.ready)))
      && (source.Ok? && target.Ok? && !SameArtifact(source.value, target.value) ==> (r, after) == (Raised(ContractError), before))
      && (source == Err(ContractError) || target == Err(ContractError) ==> (r, after) == (Raised(ContractError), before))
  {
    var source, target := StatOf(TemporaryRef(key), before.temporary), StatOf(ReadyRef(key), before.ready);
    SoloUnfolds(key, StatTemporary, before, []);
    if source == Err(KeyError) {
      SoloUnfolds(key, StatReady(None), before, []);
    } else if source.Ok? && target == Err(KeyError) {
      SoloCompletes(key, before, before.temporary.value);
    } else if source.Ok? {
      SoloUnfolds(key, StatReady(Some(source.value)), before, []);
      if target.Ok? && SameArtifact(source.value, target.value) {
        SoloUnfolds(key, DeleteTemporary(target.value), before, []);
      }
    }
  }

  /** A putter left alone, with one fault per request. */
  function PutAlone(late: StoredObject, b: Bucket, faults: seq<Fault>): (Putter, Bucket) {
    var (p, b') := PutStep(late, HeadReady, b, if faults == [] then NoFault else faults[0]);
    PutStep(late, p, b', if |faults| < 2 then NoFault else faults[1])
  }

  // ----- The adapter -----

  /** The adapter over a bucket of many keys. `faults` scripts how coming requests go wrong. */
  class S3ArtifactStore {
    var objects: map<ArtifactRef, StoredObject>
    var faults: seq<Fault>

    constructor ()
      ensures objects == map[] && faults == []
    {
      objects, faults := map[], [];
    }

    function Lookup(ref: ArtifactRef): Option<StoredObject>
      reads this`objects
    {
      if ref in objects then Some(objects[ref]) else None
    }

    function View(key: string): Bucket
      reads this`objects
    {
      Bucket(Lookup(TemporaryRef(key)), Lookup(ReadyRef(key)))
    }

    method NextFault() returns (fault: Fault)
      modifies this`faults
      ensures fault == if old(faults) == [] then NoFault else old(faults)[0]
      ensures faults == if old(faults) == [] then [] else old(faults)[1..]
    {
      fault := NoFault;
      if faults != [] {
        fault := faults[0];
        faults := faults[1..];
      }
    }

    method Stat(ref: ArtifactRef) returns (r: Result<ArtifactStat, StoreError>)
      modifies this`faults
      ensures faults == if old(faults) == [] then [] else old(faults)[1..]
      ensures r == if old(faults) == [] || old(faults)[0] == NoFault then StatOf(ref, Lookup(ref)) else Err(RequestFailed)
      ensures r == Err(KeyError) <==> (old(faults) == [] || old(faults)[0] == NoFault) && ref !in objects
      ensures r.Ok? ==>
        && ref in objects && r.value.ref == ref && r.value.sizeBytes == |objects[ref].body|
        && objects[ref].metadata.size == Some(r.value.sizeBytes) && objects[ref].metadata.checksum == Some(r.value.checksum)
    {
      var fault := NextFault();
      if fault != NoFault {
        return Err(RequestFailed);
      }
      r := StatOf(ref, Lookup(ref));
    }

    /** `put`: refused once ready exists; otherwise it replaces the temporary object and nothing else. */
    method Put(ref: ArtifactRef, payload: Bytes, contentType: Option<string>) returns (r: Result<ArtifactStat, StoreError>)
      modifies this
      ensures ref.state.Ready? ==> r == Err(ContractError)
      ensures r.Ok? ==> r.value == Describe(ref, payload, contentType)
                        && objects == old(objects)[ref := Uploaded(payload, contentType)]
                        && StatOf(ref, Lookup(ref)) == Ok(r.value)
      ensures ref.state.Ready? ==> objects == old(objects)
      ensures ReadyRef(ref.key) in old(objects) ==> r.Err? && objects == old(objects)
      ensures r.Ok? <==> ref.state.Temporary? && ReadyRef(ref.key) !in old(objects) && Answered(old(faults), 2)
      ensures r == Err(ContractError) <==> ref.state.Ready? || (ReadyRef(ref.key) in old(objects) && Answered(old(faults), 1))
      ensures ref.state.Temporary? ==>
        var uploaded := ReadyRef(ref.key) !in old(objects) && Answered(old(faults), 1) && TakesEffect(FaultAt(old(faults), 1));
        objects == if uploaded then old(objects)[ref := Uploaded(payload, contentType)] else old(objects)
      ensures ref.state.Temporary? ==>
        (if r.Ok? then PutDone else PutRaised, View(ref.key)) == PutAlone(Uploaded(payload, contentType), old(View(ref.key)), old(faults))
    {
      if ref.state.Ready? {
        return Err(ContractError);
      }
      ghost var script := faults;
      var headFault := NextFault();
      assert headFault == FaultAt(script, 0);
      if headFault != NoFault {
        return Err(RequestFailed);
      }
      if ReadyRef(ref.key) in objects {
        return Err(ContractError);
      }
      var putFault := NextFault();
      assert putFault == FaultAt(script, 1);
      if putFault == FailedBefore || putFault == Conflict {
        return Err(RequestFailed);
      }
      objects := objects[ref := Uploaded(payload, contentType)];
      if putFault == FailedAfter {
        return Err(RequestFailed);
      }
      UploadedIsDescribed(ref, payload, contentType);
      r := Ok(Describe(ref, payload, contentType));
    }

    method Delete(ref: ArtifactRef) returns (r: Result<(), StoreError>)
      modifies this
      ensures faults == if old(faults) == [] then [] else old(faults)[1..]
      ensures var fault := if old(faults) == [] then NoFault else old(faults)[0];
        && objects == (if fault == NoFault || fault == FailedAfter then old(objects) - {ref} else old(objects))
        && r == (if fault == NoFault then Ok(()) else Err(RequestFailed))
    {
      var fault := NextFault();
      if fault == FailedBefore || fault == Conflict {
        return Err(RequestFailed);
      }
      objects := objects - {ref};
      r := if fault == NoFault then Ok(()) else Err(RequestFailed);
    }

    /** The copy request of `promote` and the stat that follows it. */
    method CopyToReady(key: string, source: ArtifactStat) returns (r: Result<ArtifactStat, StoreError>)
      modifies this
      ensures Solo(key, CopyIfAbsent(source), old(View(key)), old(faults))
        == (match r
            case Err(e) => (Raised(e), View(key))
            case Ok(ready) => if SameArtifact(source, ready) then Solo(key, DeleteTemporary(ready), View(key), faults)
                              else (Raised(ContractError), View(key)))
      ensures forall other: ArtifactRef | other.key != key :: Lookup(other) == old(Lookup(other))
    {
      var ref, readyRef := TemporaryRef(key), ReadyRef(key);
      var fault := NextFault();
      if fault == FailedBefore {
        return Err(RequestFailed);
      }
      var refused := fault == Conflict || (fault == NoFault && readyRef in objects);
      if !refused {
        if readyRef in objects || ref !in objects {
          return Err(RequestFailed);
        }
        objects := objects[readyRef := objects[ref]];
        if fault == FailedAfter {
          return Err(RequestFailed);
        }
      }
      r := Stat(readyRef);
      if r == Err(KeyError) && refused {
        r := Err(RequestFailed);
      }
    }

    /** The last request of `promote`. */
    method DeleteLast(key: string, ready: ArtifactStat) returns (r: Result<ArtifactStat, StoreError>)
      modifies this
      ensures (if r.Ok? then Returned(r.value) else Raised(r.error), View(key)) == Solo(key, DeleteTemporary(ready), old(View(key)), old(faults))
      ensures r == if Answered(old(faults), 1) then Ok(ready) else Err(RequestFailed)
      ensures Lookup(ReadyRef(key)) == old(Lookup(ReadyRef(key)))
      ensures Lookup(TemporaryRef(key)) == if TakesEffect(FaultAt(old(faults), 0)) then None else old(Lookup(TemporaryRef(key)))
      ensures forall other: ArtifactRef | other.key != key :: Lookup(other) == old(Lookup(other))
    {
      ghost var fault := FaultAt(faults, 0);
      var deleted := Delete(TemporaryRef(key));
      r := if deleted.Ok? then Ok(ready) else Err(deleted.error);
    }

    /**
     * `promote` as written, one request after the other. On a temporary reference it does exactly what
     * the worker machine does when left alone, and it touches no other key. It returns only when nothing is
     * temporary any more, with the stat of what is ready; and it raises KeyError only when there is nothing.
     */
    method Promote(ref: ArtifactRef) returns (r: Result<ArtifactStat, StoreError>)
      modifies this
      ensures ref.state.Temporary? ==>
        (if r.Ok? then Returned(r.value) else Raised(r.error), View(ref.key))
          == Solo(ref.key, StatTemporary, old(View(ref.key)), old(faults))
      ensures ref.state.Temporary? && r.Ok? ==>
        && TemporaryRef(ref.key) !in objects && ReadyRef(ref.key) in objects
        && StatOf(ReadyRef(ref.key), Lookup(ReadyRef(ref.key))) == r
        && Lookup(ReadyRef(ref.key)) == (if ReadyRef(ref.key) in old(objects) then old(Lookup(ReadyRef(ref.key))) else old(Lookup(TemporaryRef(ref.key))))
      ensures ref.state.Temporary? ==>
        (r == Err(KeyError) <==> TemporaryRef(ref.key) !in old(objects) && ReadyRef(ref.key) !in old(objects) && Answered(old(faults), 2))
      ensures ref.state.Temporary? && r.Err? && r.error != RequestFailed ==> View(ref.key) == old(View(ref.key))
      ensures ref.state.Ready? ==> objects == old(objects)
      ensures ref.state.Ready? ==>
        r == if old(faults) == [] || old(faults)[0] == NoFault then StatOf(ref, Lookup(ref)) else Err(RequestFailed)
      ensures forall other: ArtifactRef | other.key != ref.key :: Lookup(other) == old(Lookup(other))
    {
      if ref.state.Ready? {
        r := Stat(ref);
        return;
      }
      ghost var alone := Solo(ref.key, StatTemporary, View(ref.key), faults);
      PromotionEndsWell(ref.key, View(ref.key), faults);
      var temporary := Stat(ref);
      if temporary.Err? && temporary.error != KeyError {
        return temporary;
      }
      var ready := Stat(ReadyRef(ref.key));
      if temporary.Err? || (ready.Err? && ready.error != KeyError) {
        return ready;
      }
      if ready.Err? {
        assert alone == Solo(ref.key, CopyIfAbsent(temporary.value), View(ref.key), faults);
        ready := CopyToReady(ref.key, temporary.value);
        if ready.Err? {
          return ready;
        }
      }
      if !SameArtifact(temporary.value, ready.value) {
        return Err(ContractError);
      }
      assert alone == Solo(ref.key, DeleteTemporary(ready.value), View(ref.key), faults);
      r := DeleteLast(ref.key, ready.value);
    }
  }
}
