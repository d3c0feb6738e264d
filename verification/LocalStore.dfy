/**
 * The filesystem artifact store: four files per key (payload and JSON sidecar, temporary and ready),
 * and operations that may stop between any two file operations.
 *
 * `os.replace` and `unlink` are single atomic steps. Every operation decides what to do from the files
 * it finds and then performs a short list of such steps; an interrupted operation performs a prefix.
 */
module LocalStore {
  import opened Prelude
  import opened Artifacts

  datatype Sidecar = Sidecar(sizeBytes: nat, checksum: Digest, contentType: Option<string>)

  function Sidecared(payload: Bytes, contentType: Option<string>): Sidecar {
    Sidecar(|payload|, Sha256(payload), contentType)
  }

  /** The four files of one key. */
  datatype Files = Files(temporaryPayload: Option<Bytes>, temporarySidecar: Option<Sidecar>,
                         readyPayload: Option<Bytes>, readySidecar: Option<Sidecar>)
  {
    function Payload(state: ArtifactState): Option<Bytes> {
      if state.Temporary? then temporaryPayload else readyPayload
    }

    function SidecarOf(state: ArtifactState): Option<Sidecar> {
      if state.Temporary? then temporarySidecar else readySidecar
    }
  }

  const NO_FILES := Files(None, None, None, None)

  /** One atomic file operation. */
  datatype FileStep =
    | WritePayload(payload: Bytes)
    | WriteSidecar(sidecar: Sidecar)
    | PromotePayload
    | PromoteSidecar
    | UnlinkPayload(state: ArtifactState)
    | UnlinkSidecar(state: ArtifactState)

  function Apply(f: Files, step: FileStep): Files {
    match step
    case WritePayload(p) => f.(temporaryPayload := Some(p))
    case WriteSidecar(s) => f.(temporarySidecar := Some(s))
    case PromotePayload => f.(temporaryPayload := None, readyPayload := f.temporaryPayload)
    case PromoteSidecar => f.(temporarySidecar := None, readySidecar := f.temporarySidecar)
    case UnlinkPayload(state) => if state.Temporary? then f.(temporaryPayload := None) else f.(readyPayload := None)
    case UnlinkSidecar(state) => if state.Temporary? then f.(temporarySidecar := None) else f.(readySidecar := None)
  }

  datatype Operation = Put(payload: Bytes, contentType: Option<string>) | Promote | Delete(state: ArtifactState)

  /** The checks of `promote`: why it refuses, when it does. */
  function PromoteError(f: Files): Option<StoreError> {
    var tp, ts, rp, rs := f.temporaryPayload.Some?, f.temporarySidecar.Some?, f.readyPayload.Some?, f.readySidecar.Some?;
    if rp && rs then (if tp || ts then Some(ContractError) else None)
    else if !tp && !ts && !rp && !rs then Some(KeyError)
    else if rp && tp then Some(ContractError)
    else if rs && ts then Some(ContractError)
    else if !(tp || rp) then Some(ContractError)
    else if !(ts || rs) then Some(ContractError)
    else None
  }

  /**
   * A promotion goes ahead exactly when the key has one payload and one sidecar, wherever they are; it raises KeyError
   * exactly when the key has nothing, and refuses everything else.
   */
  lemma PromotesExactlyWhen(f: Files)
    ensures PromoteError(f).None? <==>
      (f.temporaryPayload.Some? <==> f.readyPayload.None?) && (f.temporarySidecar.Some? <==> f.readySidecar.None?)
    ensures PromoteError(f) == Some(KeyError) <==> f == NO_FILES
    ensures PromoteError(f) != Some(RequestFailed)
  {
  }

  /** The file operations an undisturbed call performs, in order. */
  function Plan(op: Operation, f: Files): seq<FileStep> {
    match op
    case Put(payload, contentType) =>
      if f.readyPayload.Some? || f.readySidecar.Some? then []
      else [WritePayload(payload), WriteSidecar(Sidecared(payload, contentType))]
    case Promote =>
      if PromoteError(f).Some? then []
      else (if f.temporaryPayload.Some? then [PromotePayload] else [])
           + (if f.temporarySidecar.Some? then [PromoteSidecar] else [])
    case Delete(state) => [UnlinkPayload(state), UnlinkSidecar(state)]
  }

  function ApplyAll(f: Files, steps: seq<FileStep>): Files
    decreases |steps|
  {
    if steps == [] then f else ApplyAll(Apply(f, steps[0]), steps[1..])
  }

  /** An operation stopped before its file operation number `stop` (or complete, if it has no more than that). */
  function Exec(f: Files, op: Operation, stop: nat): Files {
    var plan := Plan(op, f);
    ApplyAll(f, if stop < |plan| then plan[..stop] else plan)
  }

  /** No plan is longer than two steps. */
  lemma ExecUnfolds(f: Files, op: Operation, stop: nat)
    ensures var plan := Plan(op, f);
      && |plan| <= 2
      && Exec(f, op, stop) == (if stop == 0 || plan == [] then f
                               else if stop == 1 || |plan| == 1 then Apply(f, plan[0])
                               else Apply(Apply(f, plan[0]), plan[1]))
  {
    var plan := Plan(op, f);
    var run := if stop < |plan| then plan[..stop] else plan;
    if |run| == 2 {
      assert run == plan && plan[1..] == [plan[1]];
      assert ApplyAll(Apply(f, plan[0]), plan[1..]) == Apply(Apply(f, plan[0]), plan[1]);
    } else if |run| == 1 {
      assert run == [plan[0]] && run[1..] == [];
      assert ApplyAll(f, run) == Apply(f, plan[0]);
    } else {
      assert run == [];
    }
  }

  /** `stat`: it trusts the sidecar but checks the payload's size against it. */
  function StatFiles(f: Files, ref: ArtifactRef): Result<ArtifactStat, StoreError> {
    var payload, sidecar := f.Payload(ref.state), f.SidecarOf(ref.state);
    if payload.None? then Err(KeyError)
    else if sidecar.None? then Err(ContractError)
    else if |payload.value| != sidecar.value.sizeBytes then Err(ContractError)
    else Ok(ArtifactStat(ref, sidecar.value.sizeBytes, sidecar.value.checksum, sidecar.value.contentType))
  }

  /** A stat fails with KeyError exactly without a payload, and succeeds exactly with a sidecar that gives its size. */
  lemma StatFilesSaysExactly(f: Files, ref: ArtifactRef)
    ensures StatFiles(f, ref) == Err(KeyError) <==> f.Payload(ref.state) == None
    ensures forall s :: StatFiles(f, ref) == Ok(s) <==>
      && f.Payload(ref.state).Some? && s.ref == ref && s.sizeBytes == |f.Payload(ref.state).value|
      && f.SidecarOf(ref.state) == Some(Sidecar(s.sizeBytes, s.checksum, s.contentType))
    ensures StatFiles(f, ref) != Err(RequestFailed)
  {
  }

  /** What the operations come to: when complete, when stopped after one file operation, and when refused. */
  lemma OperationsMean(f: Files, payload: Bytes, contentType: Option<string>)
    ensures f.readyPayload.None? && f.readySidecar.None? ==>
      && Exec(f, Put(payload, contentType), 2) == Files(Some(payload), Some(Sidecared(payload, contentType)), None, None)
      && Exec(f, Put(payload, contentType), 1) == Files(Some(payload), f.temporarySidecar, None, None)
    ensures f.readyPayload.Some? || f.readySidecar.Some? ==> forall stop :: Exec(f, Put(payload, contentType), stop) == f
    ensures PromoteError(f).None? ==> Exec(f, Promote, 2) == Files(None, None, ThePayload(f), TheSidecar(f))
    ensures PromoteError(f).None? && f.temporaryPayload.Some? ==> Exec(f, Promote, 1) == f.(temporaryPayload := None, readyPayload := ThePayload(f))
    ensures PromoteError(f).Some? ==> forall stop :: Exec(f, Promote, stop) == f
    ensures Exec(f, Delete(Temporary), 2) == f.(temporaryPayload := None, temporarySidecar := None)
    ensures Exec(f, Delete(Temporary), 1) == f.(temporaryPayload := None)
    ensures Exec(f, Delete(Ready), 2) == f.(readyPayload := None, readySidecar := None)
    ensures Exec(f, Delete(Ready), 1) == f.(readyPayload := None)
    ensures Sidecared(payload, contentType) == Sidecar(|payload|, Sha256(payload), contentType)
    ensures forall op :: Exec(f, op, 0) == f
  {
    hide Plan, Exec, ApplyAll;
    OperationPlans(f, payload, contentType);
    forall op, stop: nat
      ensures Exec(f, op, 0) == f && (Plan(op, f) == [] ==> Exec(f, op, stop) == f)
    {
      ExecUnfolds(f, op, 0);
      ExecUnfolds(f, op, stop);
    }
    ExecUnfolds(f, Put(payload, contentType), 1);
    ExecUnfolds(f, Put(payload, contentType), 2);
    ExecUnfolds(f, Promote, 1);
    ExecUnfolds(f, Promote, 2);
    ExecUnfolds(f, Delete(Temporary), 1);
    ExecUnfolds(f, Delete(Temporary), 2);
    ExecUnfolds(f, Delete(Ready), 1);
    ExecUnfolds(f, Delete(Ready), 2);
  }

  lemma OperationPlans(f: Files, payload: Bytes, contentType: Option<string>)
    ensures f.readyPayload.None? && f.readySidecar.None? ==>
      Plan(Put(payload, contentType), f) == [WritePayload(payload), WriteSidecar(Sidecared(payload, contentType))]
    ensures f.readyPayload.Some? || f.readySidecar.Some? ==> Plan(Put(payload, contentType), f) == []
    ensures PromoteError(f).Some? ==> Plan(Promote, f) == []
    ensures PromoteError(f).None? ==>
      && (f.temporaryPayload.Some? && f.temporarySidecar.Some? ==> Plan(Promote, f) == [PromotePayload, PromoteSidecar])
      && (f.temporaryPayload.Some? && f.temporarySidecar.None? ==> Plan(Promote, f) == [PromotePayload])
      && (f.temporaryPayload.None? && f.temporarySidecar.Some? ==> Plan(Promote, f) == [PromoteSidecar])
      && (f.temporaryPayload.None? && f.temporarySidecar.None? ==> Plan(Promote, f) == [])
    ensures Plan(Delete(Temporary), f) == [UnlinkPayload(Temporary), UnlinkSidecar(Temporary)]
    ensures Plan(Delete(Ready), f) == [UnlinkPayload(Ready), UnlinkSidecar(Ready)]
  {
  }

  // ----- What every history keeps -----

  /** A call together with where it stops. */
  datatype Event = Event(op: Operation, stop: nat)

  function History(f: Files, events: seq<Event>): Files {
    if events == [] then f
    else
      var last := events[|events| - 1];
      Exec(History(f, events[..|events| - 1]), last.op, last.stop)
  }

  /** No file exists in both states, and a ready sidecar never coexists with a temporary payload. */
  predicate Exclusive(f: Files) {
    && !(f.temporaryPayload.Some? && f.readyPayload.Some?)
    && !(f.temporarySidecar.Some? && f.readySidecar.Some?)
    && !(f.readySidecar.Some? && f.temporaryPayload.Some?)
  }

  lemma ExecKeepsExclusive(f: Files, op: Operation, stop: nat)
    requires Exclusive(f)
    ensures Exclusive(Exec(f, op, stop))
  {
    ExecUnfolds(f, op, stop);
  }

  /** In every serial history of put, promote and delete, stopped anywhere, the four files stay exclusive. */
  lemma {:induction false} HistoryKeepsExclusive(events: seq<Event>)
    ensures Exclusive(History(NO_FILES, events))
  {
    if events != [] {
      HistoryKeepsExclusive(events[..|events| - 1]);
      var last := events[|events| - 1];
      ExecKeepsExclusive(History(NO_FILES, events[..|events| - 1]), last.op, last.stop);
    }
  }

  /** The payload and the sidecar of the key, wherever they are. */
  function ThePayload(f: Files): Option<Bytes> {
    if f.temporaryPayload.Some? then f.temporaryPayload else f.readyPayload
  }

  function TheSidecar(f: Files): Option<Sidecar> {
    if f.temporarySidecar.Some? then f.temporarySidecar else f.readySidecar
  }

  /** A sidecar that `stat` would accept for the payload, because the size agrees, has its checksum too. */
  predicate Agree(payload: Bytes, sidecar: Sidecar) {
    |payload| == sidecar.sizeBytes ==> sidecar.checksum == Sha256(payload)
  }

  /** Whatever payload and sidecar the key has now, in whichever states, agree. */
  predicate Truthful(f: Files) {
    ThePayload(f).Some? && TheSidecar(f).Some? ==> Agree(ThePayload(f).value, TheSidecar(f).value)
  }

  /** A put that stops between its two replaces and leaves its payload beside an older sidecar it disagrees with. */
  predicate TornPut(f: Files, op: Operation, stop: nat) {
    && op.Put? && stop == 1
    && f.readyPayload.None? && f.readySidecar.None?
    && f.temporarySidecar.Some? && !Agree(op.payload, f.temporarySidecar.value)
  }

  /** From a truthful state, one event ends in a truthful state exactly when it is not a torn put. */
  lemma TruthfulExactlyUnlessTorn(f: Files, op: Operation, stop: nat)
    requires Exclusive(f) && Truthful(f)
    ensures Truthful(Exec(f, op, stop)) <==> !TornPut(f, op, stop)
  {
    ExecUnfolds(f, op, stop);
  }

  /** A successful stat is wrong about the stored payload. */
  predicate Lies(f: Files, state: ArtifactState) {
    var stat := StatFiles(f, ArtifactRef("", state));
    stat.Ok? && !(stat.value.sizeBytes == |f.Payload(state).value| && stat.value.checksum == Sha256(f.Payload(state).value))
  }

  predicate StatIsHonest(f: Files) { !Lies(f, Temporary) && !Lies(f, Ready) }

  /** Is any event of the history a torn put? */
  predicate HasTornPut(events: seq<Event>) {
    exists k | 0 <= k < |events| :: TornPut(History(NO_FILES, events[..k]), events[k].op, events[k].stop)
  }

  lemma {:induction false} UntornHistoryIsTruthful(events: seq<Event>)
    requires !HasTornPut(events)
    ensures Truthful(History(NO_FILES, events))
  {
    if events != [] {
      var init, last := events[..|events| - 1], events[|events| - 1];
      forall k | 0 <= k < |init|
        ensures !TornPut(History(NO_FILES, init[..k]), init[k].op, init[k].stop)
      {
        assert init[..k] == events[..k];
      }
      UntornHistoryIsTruthful(init);
      HistoryKeepsExclusive(init);
      TruthfulExactlyUnlessTorn(History(NO_FILES, init), last.op, last.stop);
    }
  }

  /**
   * `stat` tells the truth at every point of a history exactly when the history has no torn put: the one
   * interruption that can make it report a checksum the stored payload does not have.
   */
  lemma StatIsHonestExactlyWithoutTornPut(events: seq<Event>)
    ensures (forall k | 0 <= k <= |events| :: StatIsHonest(History(NO_FILES, events[..k]))) <==> !HasTornPut(events)
  {
    if !HasTornPut(events) {
      forall k | 0 <= k <= |events|
        ensures StatIsHonest(History(NO_FILES, events[..k]))
      {
        forall j | 0 <= j < k
          ensures !TornPut(History(NO_FILES, events[..k][..j]), events[..k][j].op, events[..k][j].stop)
        {
          assert events[..k][..j] == events[..j];
        }
        UntornHistoryIsTruthful(events[..k]);
        HistoryKeepsExclusive(events[..k]);
      }
    } else {
      var k :| 0 <= k < |events| && TornPut(History(NO_FILES, events[..k]), events[k].op, events[k].stop);
      TornPutLies(events, k);
    }
  }

  lemma TornPutLies(events: seq<Event>, k: nat)
    requires k < |events| && TornPut(History(NO_FILES, events[..k]), events[k].op, events[k].stop)
    ensures !StatIsHonest(History(NO_FILES, events[..k + 1]))
  {
    assert events[..k + 1][..k] == events[..k];
    var f := History(NO_FILES, events[..k]);
    ExecUnfolds(f, events[k].op, 1);
    assert Lies(Exec(f, events[k].op, 1), Temporary);
  }

  /** The shortest such history: replace one payload by another of the same size and stop halfway. */
  lemma SameSizeReplacementCanTear(a: byte, b: byte)
    requires a != b
    ensures var events := [Event(Put([a], None), 2), Event(Put([b], None), 1)];
            var f := History(NO_FILES, events);
      f.temporaryPayload == Some([b]) && StatFiles(f, TemporaryRef("k")) == Ok(Describe(TemporaryRef("k"), [a], None))
  {
    var events := [Event(Put([a], None), 2), Event(Put([b], None), 1)];
    assert events[..1] == [events[0]] && events[..1][..0] == [];
    var f := Files(Some([a]), Some(Sidecared([a], None)), None, None);
    ExecUnfolds(NO_FILES, events[0].op, 2);
    assert History(NO_FILES, events[..1]) == f;
    ExecUnfolds(f, events[1].op, 1);
    assert [a] != [b];
  }

  // ----- Ready artifacts, and promotion -----

  /** Ready content is written once: only deleting it changes a ready payload. */
  lemma ReadyPayloadIsWrittenOnce(f: Files, op: Operation, stop: nat)
    requires Exclusive(f) && f.readyPayload.Some? && op != Delete(Ready)
    ensures Exec(f, op, stop).readyPayload == f.readyPayload
  {
    ExecUnfolds(f, op, stop);
  }

  /** `n` interrupted promotes, each stopped at its own point. */
  function Promotes(stops: seq<nat>): seq<Event> {
    seq(|stops|, i requires 0 <= i < |stops| => Event(Promote, stops[i]))
  }

  /** Where an artifact can be while it is being promoted: payload first, then sidecar. */
  predicate Promoting(f: Files, payload: Bytes, sidecar: Sidecar) {
    || f == Files(Some(payload), Some(sidecar), None, None)
    || f == Files(None, Some(sidecar), Some(payload), None)
    || f == Files(None, None, Some(payload), Some(sidecar))
  }

  lemma {:induction false} PromotesStayOnCourse(f: Files, stops: seq<nat>, payload: Bytes, sidecar: Sidecar)
    requires Promoting(f, payload, sidecar)
    ensures Promoting(History(f, Promotes(stops)), payload, sidecar)
  {
    if stops != [] {
      var init := stops[..|stops| - 1];
      assert Promotes(stops)[..|stops| - 1] == Promotes(init);
      PromotesStayOnCourse(f, init, payload, sidecar);
      PromoteStaysOnCourse(History(f, Promotes(init)), stops[|stops| - 1], payload, sidecar);
    }
  }

  lemma PromoteStaysOnCourse(f: Files, stop: nat, payload: Bytes, sidecar: Sidecar)
    requires Promoting(f, payload, sidecar)
    ensures Promoting(Exec(f, Promote, stop), payload, sidecar)
    ensures stop >= 2 ==> Exec(f, Promote, stop) == Files(None, None, Some(payload), Some(sidecar))
  {
    ExecUnfolds(f, Promote, stop);
  }

  /**
   * Promotion is crash-retry safe: from a complete temporary artifact, any number of interrupted promotes
   * and then one that is not interrupted end with exactly the original payload and sidecar ready and
   * nothing temporary, and a further promote changes nothing and reports the same.
   */
  lemma PromotionSurvivesCrashes(key: string, stops: seq<nat>, payload: Bytes, contentType: Option<string>)
    ensures var sidecar := Sidecared(payload, contentType);
            var f := History(Files(Some(payload), Some(sidecar), None, None), Promotes(stops));
            var g := Exec(f, Promote, 2);
      && PromoteError(f).None?
      && g == Files(None, None, Some(payload), Some(sidecar))
      && StatFiles(g, ReadyRef(key)) == Ok(Describe(ReadyRef(key), payload, contentType))
      && PromoteError(g).None? && Exec(g, Promote, 2) == g
  {
    var sidecar := Sidecared(payload, contentType);
    var start := Files(Some(payload), Some(sidecar), None, None);
    PromotesStayOnCourse(start, stops, payload, sidecar);
    PromoteStaysOnCourse(History(start, Promotes(stops)), 2, payload, sidecar);
  }

  // ----- The adapter -----

  /**
   * How a call ends: with a value, with a refusal, or interrupted, by an exception or a crash, after some of its file
   * operations or after all of them.
   */
  datatype Ending<+T> = Finished(value: T) | Refused(error: StoreError) | Interrupted

  class LocalArtifactStore {
    var payloads: map<ArtifactRef, Bytes>
    var sidecars: map<ArtifactRef, Sidecar>

    constructor ()
      ensures payloads == map[] && sidecars == map[]
    {
      payloads, sidecars := map[], map[];
    }

    function FilesOf(key: string): Files
      reads this
    {
      var t, r := TemporaryRef(key), ReadyRef(key);
      Files(if t in payloads then Some(payloads[t]) else None,
            if t in sidecars then Some(sidecars[t]) else None,
            if r in payloads then Some(payloads[r]) else None,
            if r in sidecars then Some(sidecars[r]) else None)
    }

    /** Every key but `key` has the files it had before. */
    twostate predicate OnlyChanges(key: string)
      reads this
    {
      forall other | other != key :: FilesOf(other) == old(FilesOf(other))
    }

    method Stat(ref: ArtifactRef) returns (r: Result<ArtifactStat, StoreError>)
      ensures r == StatFiles(FilesOf(ref.key), ref)
    {
      if ref !in payloads {
        return Err(KeyError);
      }
      if ref !in sidecars {
        return Err(ContractError);
      }
      var sidecar := sidecars[ref];
      if |payloads[ref]| != sidecar.sizeBytes {
        return Err(ContractError);
      }
      r := Ok(ArtifactStat(ref, sidecar.sizeBytes, sidecar.checksum, sidecar.contentType));
    }

    /** `put` once the payload is staged. It is interrupted after `stop` file operations, unless it has fewer than that. */
    method Put(ref: ArtifactRef, payload: Bytes, contentType: Option<string>, stop: nat) returns (r: Ending<ArtifactStat>)
      modifies this
      ensures ref.state.Ready? ==> r == Refused(ContractError) && payloads == old(payloads) && sidecars == old(sidecars)
      ensures ref.state.Temporary? ==> FilesOf(ref.key) == Exec(old(FilesOf(ref.key)), Operation.Put(payload, contentType), stop)
      ensures ref.state.Temporary? ==>
        r == (if ReadyRef(ref.key) in old(payloads) || ReadyRef(ref.key) in old(sidecars) then Refused(ContractError)
              else if stop <= 2 then Interrupted
              else Finished(Describe(ref, payload, contentType)))
      ensures r.Finished? ==> FilesOf(ref.key) == Files(Some(payload), Some(Sidecared(payload, contentType)), None, None)
      ensures OnlyChanges(ref.key)
    {
      OperationsMean(FilesOf(ref.key), payload, contentType);
      if ref.state.Ready? {
        return Refused(ContractError);
      }
      var readyRef := ReadyRef(ref.key);
      if readyRef in payloads || readyRef in sidecars {
        return Refused(ContractError);
      }
      ExecUnfolds(FilesOf(ref.key), Operation.Put(payload, contentType), stop);
      if stop == 0 {
        return Interrupted;
      }
      payloads := payloads[ref := payload];
      if stop == 1 {
        return Interrupted;
      }
      sidecars := sidecars[ref := Sidecared(payload, contentType)];
      if stop == 2 {
        return Interrupted;
      }
      r := Finished(Describe(ref, payload, contentType));
    }

    method Delete(ref: ArtifactRef, stop: nat) returns (r: Ending<()>)
      modifies this
      ensures FilesOf(ref.key) == Exec(old(FilesOf(ref.key)), Operation.Delete(ref.state), stop)
      ensures r == if stop <= 2 then Interrupted else Finished(())
      ensures stop >= 2 ==> ref !in payloads && ref !in sidecars
      ensures OnlyChanges(ref.key)
    {
      ExecUnfolds(FilesOf(ref.key), Operation.Delete(ref.state), stop);
      if stop == 0 {
        return Interrupted;
      }
      payloads := payloads - {ref};
      if stop == 1 {
        return Interrupted;
      }
      sidecars := sidecars - {ref};
      r := if stop == 2 then Interrupted else Finished(());
    }

    method Promote(ref: ArtifactRef, stop: nat) returns (r: Ending<ArtifactStat>)
      modifies this
      ensures ref.state.Ready? ==>
        && payloads == old(payloads) && sidecars == old(sidecars)
        && r == (match StatFiles(FilesOf(ref.key), ref) case Ok(s) => Finished(s) case Err(e) => Refused(e))
      ensures ref.state.Temporary? ==>
        var before := old(FilesOf(ref.key));
        && FilesOf(ref.key) == Exec(before, Operation.Promote, stop)
        && r == (if PromoteError(before).Some? then Refused(PromoteError(before).value)
                 else if stop <= |Plan(Operation.Promote, before)| then Interrupted
                 else match StatFiles(FilesOf(ref.key), ReadyRef(ref.key)) case Ok(s) => Finished(s) case Err(e) => Refused(e))
      ensures ref.state.Temporary? ==>
        var before := old(FilesOf(ref.key));
        && (r.Finished? ==> FilesOf(ref.key) == Files(None, None, ThePayload(before), TheSidecar(before)))
        && (r == Refused(KeyError) <==> before == NO_FILES)
      ensures OnlyChanges(ref.key)
    {
      PromotesExactlyWhen(FilesOf(ref.key));
      if ref.state.Ready? {
        var stat := Stat(ref);
        return match stat case Ok(s) => Finished(s) case Err(e) => Refused(e);
      }
      var readyRef := ReadyRef(ref.key);
      var temporaryPayload, temporarySidecar := ref in payloads, ref in sidecars;
      var readyPayload, readySidecar := readyRef in payloads, readyRef in sidecars;
      if readyPayload && readySidecar {
        if temporaryPayload || temporarySidecar {
          return Refused(ContractError);
        }
      } else if !temporaryPayload && !temporarySidecar && !readyPayload && !readySidecar {
        return Refused(KeyError);
      } else if (readyPayload && temporaryPayload) || (readySidecar && temporarySidecar) {
        return Refused(ContractError);
      } else if !(temporaryPayload || readyPayload) || !(temporarySidecar || readySidecar) {
        return Refused(ContractError);
      }
      ExecUnfolds(FilesOf(ref.key), Operation.Promote, stop);
      var performed := 0;
      if temporaryPayload {
        if stop == performed {
          return Interrupted;
        }
        payloads := payloads[readyRef := payloads[ref]] - {ref};
        performed := performed + 1;
      }
      if temporarySidecar {
        if stop == performed {
          return Interrupted;
        }
        sidecars := sidecars[readyRef := sidecars[ref]] - {ref};
        performed := performed + 1;
      }
      if stop == performed {
        return Interrupted;
      }
      var stat := Stat(readyRef);
      r := match stat case Ok(s) => Finished(s) case Err(e) => Refused(e);
    }
  }
}
