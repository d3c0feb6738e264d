/**
 * Resolving a stage's checkpoint identity from persisted rows, and reusing an exact match, for a whole
 * plan of stages in dependency order.
 */
module CheckpointReuse {
  import opened Prelude
  import opened CheckpointEncoding

  datatype Status = Running | Succeeded | Failed | Skipped | Cancelled

  /** A persisted hash column: `sha256:<hex>`, or something that is not. */
  datatype StoredHash = Stored(digest: Digest) | Malformed

  datatype Row = Row(stageVersion: Text, inputHash: StoredHash, configHash: StoredHash, status: Status, outputFingerprint: Option<Text>)

  datatype RowKey = RowKey(run: nat, stageName: Text)

  type Rows = map<RowKey, Row>

  datatype Identity = Identity(stageName: Text, stageVersion: Text, inputHash: Digest, configHash: Digest)

  datatype ResolveError =
    | DuplicateExpected
    | MissingDependency
    | DependencyNotSucceeded
    | DependencyWithoutOutput
    | InvalidFingerprint
    | IncompleteProvenance(error: CheckpointError)
    | MalformedCandidate
    | CheckpointWithoutOutput

  predicate IsHexDigit(b: byte) { 48 <= b <= 57 || 97 <= b <= 102 }

  /** `sha256:` and 64 lowercase hexadecimal digits. */
  predicate IsFingerprint(t: Text) {
    |t| == 71 && t[..7] == Ascii("sha256:") && forall i | 7 <= i < 71 :: IsHexDigit(t[i])
  }

  /** A fingerprint spelt out: `sha256:` and 64 digits out of 0 to 9 and a to f. */
  lemma FingerprintLooksLike(t: Text)
    ensures IsFingerprint(t) <==>
      |t| == 71 && t[..7] == Ascii("sha256") + Ascii(":") && forall i | 7 <= i < 71 :: t[i] in Ascii("0123456789abcdef")
  {
    assert Ascii("sha256:") == Ascii("sha256") + Ascii(":");
    hide Ascii;
    DigitsAreHex();
  }

  lemma DigitsAreHex()
    ensures forall b: byte :: IsHexDigit(b) <==> b in Ascii("0123456789abcdef")
  {
    var digits := Ascii("0123456789abcdef");
    assert digits == [48, 49, 50, 51, 52, 53, 54, 55, 56, 57, 97, 98, 99, 100, 101, 102];
  }

  // ----- The store -----

  /** One direct dependency: its persisted, successful, well-formed output. */
  function LoadDependency(rows: Rows, run: nat, name: Text): Result<DependencyOutput, ResolveError> {
    var key := RowKey(run, name);
    if key !in rows then Err(MissingDependency)
    else if rows[key].status != Succeeded then Err(DependencyNotSucceeded)
    else if rows[key].outputFingerprint.None? then Err(DependencyWithoutOutput)
    else if !IsFingerprint(rows[key].outputFingerprint.value) then Err(InvalidFingerprint)
    else Ok(DependencyOutput(name, rows[key].outputFingerprint.value))
  }

  function LoadAll(rows: Rows, run: nat, names: seq<Text>): (r: Result<seq<DependencyOutput>, ResolveError>)
    ensures r.Ok? ==> NamesOf(r.value) == names
  {
    if names == [] then Ok([])
    else
      var init := LoadAll(rows, run, names[..|names| - 1]);
      if init.Err? then init
      else
        match LoadDependency(rows, run, names[|names| - 1])
        case Err(e) => Err(e)
        case Ok(output) => Ok(init.value + [output])
  }

  function LoadDependencyOutputs(rows: Rows, run: nat, expected: seq<Text>): Result<seq<DependencyOutput>, ResolveError> {
    if HasDuplicates(expected) then Err(DuplicateExpected) else LoadAll(rows, run, expected)
  }

  /** The persisted output of a dependency can be used: its stage has succeeded in this run, with a well-formed fingerprint. */
  predicate IsLoadable(rows: Rows, run: nat, name: Text) {
    var key := RowKey(run, name);
    && key in rows && rows[key].status == Succeeded && rows[key].outputFingerprint.Some?
    && IsFingerprint(rows[key].outputFingerprint.value)
  }

  /** Outputs are loaded exactly when no dependency is named twice and all of them can be used; then these are they, in order. */
  lemma {:induction false} LoadsExactlyWhen(rows: Rows, run: nat, names: seq<Text>)
    ensures LoadAll(rows, run, names).Ok? <==> forall i | 0 <= i < |names| :: IsLoadable(rows, run, names[i])
    ensures LoadAll(rows, run, names).Ok? ==>
      |LoadAll(rows, run, names).value| == |names| && forall i | 0 <= i < |names| ::
        LoadAll(rows, run, names).value[i] == DependencyOutput(names[i], rows[RowKey(run, names[i])].outputFingerprint.value)
    ensures LoadDependencyOutputs(rows, run, names) == if Distinct(names) then LoadAll(rows, run, names) else Err(DuplicateExpected)
  {
    hide IsFingerprint;
    if names != [] {
      LoadsExactlyWhen(rows, run, names[..|names| - 1]);
    }
  }

  /** Why a dependency cannot be used. */
  lemma LoadingFailsExactlyWhen(rows: Rows, run: nat, name: Text)
    ensures var key, r := RowKey(run, name), LoadDependency(rows, run, name);
      && (r.Ok? <==> IsLoadable(rows, run, name))
      && (r == Err(MissingDependency) <==> key !in rows)
      && (r == Err(DependencyNotSucceeded) <==> key in rows && rows[key].status != Succeeded)
      && (r == Err(DependencyWithoutOutput) <==> key in rows && rows[key].status == Succeeded && rows[key].outputFingerprint.None?)
  {
  }

  /** The failure reported is that of the first dependency that cannot be used. */
  lemma {:induction false} FirstFailureIsReported(rows: Rows, run: nat, names: seq<Text>) returns (i: nat)
    requires LoadAll(rows, run, names).Err?
    ensures i < |names| && !IsLoadable(rows, run, names[i]) && forall k | 0 <= k < i :: IsLoadable(rows, run, names[k])
    ensures LoadDependency(rows, run, names[i]) == Err(LoadAll(rows, run, names).error)
  {
    hide IsFingerprint;
    var init := names[..|names| - 1];
    if LoadAll(rows, run, init).Err? {
      i := FirstFailureIsReported(rows, run, init);
    } else {
      LoadsExactlyWhen(rows, run, init);
      i := |init|;
      assert forall k | 0 <= k < i :: init[k] == names[k];
    }
  }

  /** The same-run row of the stage, when it is an exact and successful match. */
  function FindReusable(rows: Rows, run: nat, expected: Identity): Result<Option<Text>, ResolveError> {
    var key := RowKey(run, expected.stageName);
    if key !in rows then Ok(None)
    else
      var row := rows[key];
      if row.inputHash.Malformed? || row.configHash.Malformed? then Err(MalformedCandidate)
      else if expected != Identity(expected.stageName, row.stageVersion, row.inputHash.digest, row.configHash.digest) then Ok(None)
      else if row.status != Succeeded then Ok(None)
      else if row.outputFingerprint.None? then Err(CheckpointWithoutOutput)
      else if !IsFingerprint(row.outputFingerprint.value) then Err(InvalidFingerprint)
      else Ok(row.outputFingerprint)
  }

  /** The row of the stage has the identity asked for. */
  predicate Matches(row: Row, expected: Identity) {
    row.stageVersion == expected.stageVersion && row.inputHash == Stored(expected.inputHash) && row.configHash == Stored(expected.configHash)
  }

  /** What is found: the output of the row that matches and has succeeded; an error for a row that is not well formed; or nothing. */
  lemma FindsExactlyWhen(rows: Rows, run: nat, expected: Identity)
    ensures var key, r := RowKey(run, expected.stageName), FindReusable(rows, run, expected);
            var hit := key in rows && Matches(rows[key], expected) && rows[key].status == Succeeded;
      && (forall f :: r == Ok(Some(f)) <==> hit && rows[key].outputFingerprint == Some(f) && IsFingerprint(f))
      && (r == Ok(None) <==> !hit && (key in rows ==> rows[key].inputHash.Stored? && rows[key].configHash.Stored?))
      && (r == Err(MalformedCandidate) <==> key in rows && (rows[key].inputHash.Malformed? || rows[key].configHash.Malformed?))
      && (r == Err(CheckpointWithoutOutput) <==> hit && rows[key].outputFingerprint.None?)
  {
  }

  /** A stage with the parts that resolving it yields, given the outputs of its dependencies. */
  datatype Stage = Stage(name: Text, version: Text, dependencies: seq<Text>, config: seq<HashPart>,
                         inputs: seq<DependencyOutput> -> seq<HashPart>)

  datatype Resolution = Resolution(identity: Identity, dependencyOutputs: seq<DependencyOutput>, reusable: Option<Text>)

  function Resolve(rows: Rows, run: nat, stage: Stage): Result<Resolution, ResolveError> {
    var loaded := LoadDependencyOutputs(rows, run, stage.dependencies);
    if loaded.Err? then Err(loaded.error)
    else
      var inputHash := InputHash(stage.inputs(loaded.value), stage.dependencies, loaded.value);
      var configHash := ConfigHash(stage.config);
      if inputHash.Err? then Err(IncompleteProvenance(inputHash.error))
      else if configHash.Err? then Err(IncompleteProvenance(configHash.error))
      else
        var identity := Identity(stage.name, stage.version, inputHash.value, configHash.value);
        match FindReusable(rows, run, identity)
        case Err(e) => Err(e)
        case Ok(reusable) => Ok(Resolution(identity, loaded.value, reusable))
  }

  /** What is resolved: the loaded outputs, the identity made of them, and what is found for it. */
  lemma ResolvesTo(rows: Rows, run: nat, stage: Stage)
    requires Resolve(rows, run, stage).Ok?
    ensures var r := Resolve(rows, run, stage).value;
      && LoadDependencyOutputs(rows, run, stage.dependencies) == Ok(r.dependencyOutputs)
      && r.identity == Identity(stage.name, stage.version,
                                Sha256(InputPreimage(stage.inputs(r.dependencyOutputs), r.dependencyOutputs)),
                                Sha256(ConfigPreimage(stage.config)))
      && FindReusable(rows, run, r.identity) == Ok(r.reusable)
  {
    hide InputPreimage, ConfigPreimage, LoadDependencyOutputs, FindReusable;
  }

  /** What resolving fails with: the first of loading, the two hashes and the row that fails. */
  lemma ResolveFailsWith(rows: Rows, run: nat, stage: Stage)
    requires Resolve(rows, run, stage).Err?
    ensures var error, loaded := Resolve(rows, run, stage).error, LoadDependencyOutputs(rows, run, stage.dependencies);
      || loaded == Err(error)
      || (loaded.Ok? && var inputHash := InputHash(stage.inputs(loaded.value), stage.dependencies, loaded.value);
          || (inputHash.Err? && error == IncompleteProvenance(inputHash.error))
          || (inputHash.Ok? && !PartsFit(stage.config) && error == IncompleteProvenance(Overflow))
          || (inputHash.Ok? && PartsFit(stage.config)
              && Err(error) == FindReusable(rows, run, Identity(stage.name, stage.version, inputHash.value, Sha256(ConfigPreimage(stage.config))))))
  {
    hide InputPreimage, ConfigPreimage, LoadDependencyOutputs, FindReusable, PartsFit;
  }

  // ----- Execution, and rows that record it -----

  /** Everything a stage's output may depend on. */
  datatype StageCall = StageCall(name: Text, version: Text, inputs: seq<HashPart>, config: seq<HashPart>, deps: seq<DependencyOutput>)

  /** Deterministic stages: the fingerprint of the output, as a function of the call. */
  type Executor = StageCall -> Text

  function CallOf(stage: Stage, deps: seq<DependencyOutput>): StageCall {
    StageCall(stage.name, stage.version, stage.inputs(deps), stage.config, deps)
  }

  /** The row a completed execution of `call` leaves. */
  ghost predicate Records(row: Row, call: StageCall, exec: Executor) {
    && row.status == Succeeded && row.stageVersion == call.version
    && InputHash(call.inputs, NamesOf(call.deps), call.deps).Ok? && ConfigHash(call.config).Ok?
    && row.inputHash == Stored(InputHash(call.inputs, NamesOf(call.deps), call.deps).value)
    && row.configHash == Stored(ConfigHash(call.config).value)
    && row.outputFingerprint == Some(exec(call))
  }

  /** Every successful row was left by some execution. */
  ghost predicate Honest(rows: Rows, exec: Executor) {
    forall key | key in rows && rows[key].status == Succeeded ::
      exists call: StageCall :: call.name == key.stageName && Records(rows[key], call, exec)
  }

  /**
   * A row left by an execution is reused exactly when that execution is the one that would happen now:
   * same stage and version, same parts, and the same dependency outputs in the same order.
   */
  lemma ReusedExactlyWhenSameCall(rows: Rows, run: nat, stage: Stage, call: StageCall, exec: Executor)
    requires RowKey(run, stage.name) in rows && call.name == stage.name && Records(rows[RowKey(run, stage.name)], call, exec)
    requires Resolve(rows, run, stage).Ok?
    ensures var resolution := Resolve(rows, run, stage).value;
      && (resolution.reusable.Some? <==> call == CallOf(stage, resolution.dependencyOutputs))
      && (resolution.reusable.Some? ==> resolution.reusable == Some(exec(call)))
  {
    hide InputHash, ConfigHash;
    var row := rows[RowKey(run, stage.name)];
    var deps := LoadDependencyOutputs(rows, run, stage.dependencies).value;
    if InputHash(stage.inputs(deps), stage.dependencies, deps) == InputHash(call.inputs, NamesOf(call.deps), call.deps) {
      InputHashIsInjective(stage.inputs(deps), stage.dependencies, deps, call.inputs, NamesOf(call.deps), call.deps);
    }
    if ConfigHash(stage.config) == ConfigHash(call.config) {
      ConfigHashIsInjective(stage.config, call.config);
    }
  }

  /** Whatever `resolve` reuses is what executing the stage now would produce. */
  lemma ReuseIsSound(rows: Rows, run: nat, stage: Stage, exec: Executor)
    requires Honest(rows, exec)
    requires Resolve(rows, run, stage).Ok? && Resolve(rows, run, stage).value.reusable.Some?
    ensures var resolution := Resolve(rows, run, stage).value;
      resolution.reusable == Some(exec(CallOf(stage, resolution.dependencyOutputs)))
  {
    hide InputHash, ConfigHash, LoadDependencyOutputs, Records;
    var key := RowKey(run, stage.name);
    assert key in rows && rows[key].status == Succeeded;
    var call: StageCall :| call.name == key.stageName && Records(rows[key], call, exec);
    ReusedExactlyWhenSameCall(rows, run, stage, call, exec);
  }

  /** A changed dependency output always forces a miss. */
  lemma ChangedDependencyMisses(rows: Rows, run: nat, stage: Stage, call: StageCall, exec: Executor)
    requires RowKey(run, stage.name) in rows && call.name == stage.name && Records(rows[RowKey(run, stage.name)], call, exec)
    requires Resolve(rows, run, stage).Ok?
    requires Resolve(rows, run, stage).value.dependencyOutputs != call.deps
    ensures Resolve(rows, run, stage).value.reusable == None
  {
    hide InputHash, ConfigHash, LoadDependencyOutputs, Records;
    ReusedExactlyWhenSameCall(rows, run, stage, call, exec);
  }

  // ----- A whole plan -----

  type Outputs = map<Text, Text>

  predicate Has(outputs: Outputs, names: seq<Text>) {
    forall i | 0 <= i < |names| :: names[i] in outputs
  }

  function OutputsOf(names: seq<Text>, outputs: Outputs): (deps: seq<DependencyOutput>)
    requires Has(outputs, names)
    ensures NamesOf(deps) == names
  {
    seq(|names|, i requires 0 <= i < |names| => DependencyOutput(names[i], outputs[names[i]]))
  }

  predicate Earlier(plan: seq<Stage>, i: nat, name: Text)
    requires i <= |plan|
  {
    exists j :: 0 <= j < i && plan[j].name == name
  }

  /** Distinct stage names, and every dependency earlier in the plan. */
  predicate InDependencyOrder(plan: seq<Stage>) {
    && (forall i, j | 0 <= i < j < |plan| :: plan[i].name != plan[j].name)
    && (forall i | 0 <= i < |plan| :: !HasDuplicates(plan[i].dependencies))
    && (forall i, d | 0 <= i < |plan| && 0 <= d < |plan[i].dependencies| :: Earlier(plan, i, plan[i].dependencies[d]))
  }

  ghost predicate Names(outputs: Outputs, plan: seq<Stage>) {
    forall name :: name in outputs <==> exists i :: 0 <= i < |plan| && plan[i].name == name
  }

  lemma PrefixInOrder(plan: seq<Stage>)
    requires InDependencyOrder(plan) && plan != []
    ensures InDependencyOrder(plan[..|plan| - 1])
  {
    var init := plan[..|plan| - 1];
    forall i, d | 0 <= i < |init| && 0 <= d < |init[i].dependencies|
      ensures Earlier(init, i, init[i].dependencies[d])
    {
      assert init[i] == plan[i];
      var name := plan[i].dependencies[d];
      assert Earlier(plan, i, name);
      var j :| 0 <= j < i && plan[j].name == name;
      assert init[j].name == name;
    }
  }

  lemma LastHasItsDependencies(plan: seq<Stage>, outputs: Outputs)
    requires InDependencyOrder(plan) && plan != []
    requires Names(outputs, plan[..|plan| - 1])
    ensures Has(outputs, plan[|plan| - 1].dependencies)
  {
    var last, init := plan[|plan| - 1], plan[..|plan| - 1];
    forall d | 0 <= d < |last.dependencies|
      ensures last.dependencies[d] in outputs
    {
      assert Earlier(plan, |plan| - 1, last.dependencies[d]);
      var j :| 0 <= j < |plan| - 1 && plan[j].name == last.dependencies[d];
      assert init[j].name == last.dependencies[d];
    }
  }

  /** Execute every stage of the plan. */
  ghost function Fresh(plan: seq<Stage>, exec: Executor): (outputs: Outputs)
    requires InDependencyOrder(plan)
    ensures Names(outputs, plan)
  {
    if plan == [] then map[]
    else
      var init, last := plan[..|plan| - 1], plan[|plan| - 1];
      PrefixInOrder(plan);
      var before := Fresh(init, exec);
      LastHasItsDependencies(plan, before);
      var outputs := before[last.name := exec(CallOf(last, OutputsOf(last.dependencies, before)))];
      OneMoreName(outputs, before, plan);
      outputs
  }

  lemma OneMoreName(outputs: Outputs, before: Outputs, plan: seq<Stage>)
    requires plan != [] && Names(before, plan[..|plan| - 1])
    requires outputs.Keys == before.Keys + {plan[|plan| - 1].name}
    ensures Names(outputs, plan)
  {
    var init := plan[..|plan| - 1];
    forall name
      ensures name in outputs <==> exists i :: 0 <= i < |plan| && plan[i].name == name
    {
      if name in outputs && name in before {
        var i :| 0 <= i < |init| && init[i].name == name;
        assert plan[i].name == name;
      }
      if i :| 0 <= i < |plan| && plan[i].name == name {
        if i < |init| {
          assert init[i].name == name;
        }
      }
    }
  }

  /** Resolve every stage in turn, reuse exact matches, and execute and record the others. */
  function WithReuse(rows: Rows, run: nat, plan: seq<Stage>, exec: Executor): Result<Rows, ResolveError> {
    if plan == [] then Ok(rows)
    else
      var init := WithReuse(rows, run, plan[..|plan| - 1], exec);
      if init.Err? then init
      else
        var stage := plan[|plan| - 1];
        match Resolve(init.value, run, stage)
        case Err(e) => Err(e)
        case Ok(resolution) => Ok(Recorded(init.value, run, stage, resolution, exec))
  }

  function Recorded(rows: Rows, run: nat, stage: Stage, resolution: Resolution, exec: Executor): Rows {
    if resolution.reusable.Some? then rows
    else rows[RowKey(run, stage.name) :=
                Row(stage.version, Stored(resolution.identity.inputHash), Stored(resolution.identity.configHash), Succeeded,
                    Some(exec(CallOf(stage, resolution.dependencyOutputs))))]
  }

  /** The run's rows hold these outputs. */
  predicate Hold(rows: Rows, run: nat, outputs: Outputs) {
    forall name | name in outputs :: Holds(rows, run, name, outputs[name])
  }

  predicate Holds(rows: Rows, run: nat, name: Text, output: Text) {
    RowKey(run, name) in rows && rows[RowKey(run, name)].status == Succeeded && rows[RowKey(run, name)].outputFingerprint == Some(output)
  }

  lemma {:induction false} LoadsWhatIsHeld(rows: Rows, run: nat, names: seq<Text>, outputs: Outputs)
    requires Has(outputs, names) && Hold(rows, run, outputs)
    ensures var loaded := LoadAll(rows, run, names);
      loaded.Ok? ==> loaded.value == OutputsOf(names, outputs)
  {
    if names != [] {
      var init := names[..|names| - 1];
      LoadsWhatIsHeld(rows, run, init, outputs);
      assert Holds(rows, run, names[|names| - 1], outputs[names[|names| - 1]]);
      assert OutputsOf(names, outputs) == OutputsOf(init, outputs) + [DependencyOutput(names[|names| - 1], outputs[names[|names| - 1]])];
    }
  }

  /** Resolving one stage over rows that hold its dependencies' outputs leaves rows that hold its own. */
  lemma ResolvedStageHolds(rows: Rows, run: nat, stage: Stage, exec: Executor, outputs: Outputs)
    requires Honest(rows, exec) && Hold(rows, run, outputs) && Has(outputs, stage.dependencies)
    requires Resolve(rows, run, stage).Ok?
    ensures var after := Recorded(rows, run, stage, Resolve(rows, run, stage).value, exec);
            var output := exec(CallOf(stage, OutputsOf(stage.dependencies, outputs)));
      && Honest(after, exec)
      && Holds(after, run, stage.name, output)
      && forall key | key in rows && key != RowKey(run, stage.name) :: key in after && after[key] == rows[key]
  {
    hide InputHash, ConfigHash;
    var resolution := Resolve(rows, run, stage).value;
    LoadsWhatIsHeld(rows, run, stage.dependencies, outputs);
    assert resolution.dependencyOutputs == OutputsOf(stage.dependencies, outputs);
    var call := CallOf(stage, resolution.dependencyOutputs);
    if resolution.reusable.Some? {
      ReuseIsSound(rows, run, stage, exec);
    } else {
      var after := Recorded(rows, run, stage, resolution, exec);
      assert Records(after[RowKey(run, stage.name)], call, exec);
      forall key | key in after && after[key].status == Succeeded
        ensures exists call: StageCall :: call.name == key.stageName && Records(after[key], call, exec)
      {
        if key != RowKey(run, stage.name) {
          assert rows[key].status == Succeeded;
        }
      }
    }
  }

  /**
   * Resolving a whole plan with reuse, from any honest rows, ends with the same output fingerprints as
   * executing every stage.
   */
  lemma {:induction false} ReuseAgreesWithExecution(rows: Rows, run: nat, plan: seq<Stage>, exec: Executor)
    requires Honest(rows, exec) && InDependencyOrder(plan)
    requires WithReuse(rows, run, plan, exec).Ok?
    ensures var after := WithReuse(rows, run, plan, exec).value;
      Honest(after, exec) && Hold(after, run, Fresh(plan, exec))
  {
    hide Honest, Resolve, Recorded, InDependencyOrder;
    if plan != [] {
      var init, last := plan[..|plan| - 1], plan[|plan| - 1];
      PrefixInOrder(plan);
      ReuseAgreesWithExecution(rows, run, init, exec);
      var before, outputs := WithReuse(rows, run, init, exec).value, Fresh(init, exec);
      LastHasItsDependencies(plan, outputs);
      ResolvedStageHolds(before, run, last, exec, outputs);
      var after := WithReuse(rows, run, plan, exec).value;
      forall name | name in Fresh(plan, exec)
        ensures Holds(after, run, name, Fresh(plan, exec)[name])
      {
        if name != last.name {
          assert Holds(before, run, name, outputs[name]);
        }
      }
    }
  }

  // ----- The driver that does not reuse -----

  /** How the stage loop of a generation run uses `resolve` today: a reusable checkpoint or an existing row is refused. */
  datatype DriveError = Refused | Unresolved(error: ResolveError)

  function AsDriven(rows: Rows, run: nat, plan: seq<Stage>, exec: Executor): Result<Rows, DriveError> {
    if plan == [] then Ok(rows)
    else
      var init := AsDriven(rows, run, plan[..|plan| - 1], exec);
      if init.Err? then init
      else
        var stage := plan[|plan| - 1];
        match Resolve(init.value, run, stage)
        case Err(e) => Err(Unresolved(e))
        case Ok(resolution) =>
          if resolution.reusable.Some? || RowKey(run, stage.name) in init.value then Err(Refused)
          else Ok(Recorded(init.value, run, stage, resolution, exec))
  }

  predicate NoRows(rows: Rows, run: nat, plan: seq<Stage>) {
    forall i | 0 <= i < |plan| :: RowKey(run, plan[i].name) !in rows
  }

  lemma StageRowsSplit(rows: Rows, run: nat, plan: seq<Stage>)
    requires InDependencyOrder(plan) && plan != []
    ensures var init, key := plan[..|plan| - 1], RowKey(run, plan[|plan| - 1].name);
      && (NoRows(rows, run, plan) <==> NoRows(rows, run, init) && key !in rows)
      && !IsStageRow(key, run, init)
      && forall k :: IsStageRow(k, run, plan) <==> IsStageRow(k, run, init) || k == key
  {
    var init, last := plan[..|plan| - 1], plan[|plan| - 1];
    assert plan == init + [last];
    forall k
      ensures IsStageRow(k, run, plan) <==> IsStageRow(k, run, init) || k == RowKey(run, last.name)
    {
      if IsStageRow(k, run, init) {
        var i :| 0 <= i < |init| && k == RowKey(run, init[i].name);
        assert plan[i] == init[i];
      }
      if k == RowKey(run, last.name) {
        assert plan[|plan| - 1] == last;
      }
    }
  }

  /** Without a row there is nothing to reuse, and the stage's row is added. */
  lemma NothingToReuse(rows: Rows, run: nat, stage: Stage, exec: Executor)
    requires RowKey(run, stage.name) !in rows && Resolve(rows, run, stage).Ok?
    ensures Resolve(rows, run, stage).value.reusable == None
    ensures var after := Recorded(rows, run, stage, Resolve(rows, run, stage).value, exec);
      forall key :: key in after <==> key in rows || key == RowKey(run, stage.name)
  {
  }

  /**
   * That driver gets through a plan exactly when resolving with reuse would and the run has no row of any of
   * its stages yet; and then it leaves the same rows.
   */
  lemma {:induction false} DrivenExactlyWithoutRows(rows: Rows, run: nat, plan: seq<Stage>, exec: Executor)
    requires InDependencyOrder(plan)
    ensures var driven, reused := AsDriven(rows, run, plan, exec), WithReuse(rows, run, plan, exec);
      && (driven.Ok? <==> reused.Ok? && NoRows(rows, run, plan))
      && (driven.Ok? ==> driven.value == reused.value)
      && (driven.Ok? ==> forall key :: key in driven.value <==> key in rows || IsStageRow(key, run, plan))
  {
    if plan == [] {
    } else {
      hide Resolve, Recorded, IsStageRow, NoRows, InDependencyOrder;
      var init, last := plan[..|plan| - 1], plan[|plan| - 1];
      PrefixInOrder(plan);
      StageRowsSplit(rows, run, plan);
      DrivenExactlyWithoutRows(rows, run, init, exec);
      var before := AsDriven(rows, run, init, exec);
      if before.Ok? && RowKey(run, last.name) !in before.value && Resolve(before.value, run, last).Ok? {
        NothingToReuse(before.value, run, last, exec);
      }
    }
  }

  predicate IsStageRow(key: RowKey, run: nat, plan: seq<Stage>) {
    exists i :: 0 <= i < |plan| && key == RowKey(run, plan[i].name)
  }

  /** A stage whose hashes exist whatever well-formed outputs its dependencies have. */
  ghost predicate Hashable(stage: Stage) {
    && ConfigHash(stage.config).Ok?
    && forall deps: seq<DependencyOutput> | NamesOf(deps) == stage.dependencies && (forall i | 0 <= i < |deps| :: IsFingerprint(deps[i].fingerprint)) ::
         InputHash(stage.inputs(deps), stage.dependencies, deps).Ok?
  }

  /** No row of the run has a malformed hash, and successful ones have a well-formed output. */
  predicate WellFormedRows(rows: Rows, run: nat) {
    forall key | key in rows && key.run == run ::
      && rows[key].inputHash.Stored? && rows[key].configHash.Stored?
      && (rows[key].status == Succeeded ==> rows[key].outputFingerprint.Some? && IsFingerprint(rows[key].outputFingerprint.value))
  }

  lemma {:induction false} LoadsHeld(rows: Rows, run: nat, names: seq<Text>, outputs: Outputs)
    requires Has(outputs, names) && Hold(rows, run, outputs) && WellFormedRows(rows, run)
    ensures LoadAll(rows, run, names).Ok?
    ensures forall i | 0 <= i < |names| :: IsFingerprint(LoadAll(rows, run, names).value[i].fingerprint)
  {
    hide IsFingerprint;
    if names != [] {
      LoadsHeld(rows, run, names[..|names| - 1], outputs);
      assert Holds(rows, run, names[|names| - 1], outputs[names[|names| - 1]]);
    }
  }

  lemma StageResolves(rows: Rows, run: nat, stage: Stage, exec: Executor, outputs: Outputs)
    requires WellFormedRows(rows, run) && Hold(rows, run, outputs) && Has(outputs, stage.dependencies)
    requires Hashable(stage) && !HasDuplicates(stage.dependencies)
    requires forall call :: IsFingerprint(exec(call))
    ensures Resolve(rows, run, stage).Ok?
    ensures WellFormedRows(Recorded(rows, run, stage, Resolve(rows, run, stage).value, exec), run)
  {
    hide IsFingerprint, InputHash, ConfigHash, HasDuplicates;
    LoadsHeld(rows, run, stage.dependencies, outputs);
  }

  /** From well-formed honest rows, resolving a hashable plan with fingerprint-producing stages never fails. */
  lemma {:induction false} PlanResolves(rows: Rows, run: nat, plan: seq<Stage>, exec: Executor)
    requires Honest(rows, exec) && InDependencyOrder(plan) && WellFormedRows(rows, run)
    requires forall call :: IsFingerprint(exec(call))
    requires forall i | 0 <= i < |plan| :: Hashable(plan[i])
    ensures WithReuse(rows, run, plan, exec).Ok? && WellFormedRows(WithReuse(rows, run, plan, exec).value, run)
  {
    hide IsFingerprint, Honest, Resolve, Recorded, WellFormedRows, Hashable, Hold, Names, Has;
    if plan != [] {
      var init, last := plan[..|plan| - 1], plan[|plan| - 1];
      PrefixInOrder(plan);
      PlanResolves(rows, run, init, exec);
      ReuseAgreesWithExecution(rows, run, init, exec);
      LastHasItsDependencies(plan, Fresh(init, exec));
      assert Hashable(last);
      StageResolves(WithReuse(rows, run, init, exec).value, run, last, exec, Fresh(init, exec));
    }
  }

  // ----- The store's methods -----

  class CheckpointStore {
    /** The persisted stage results of all runs. */
    var rows: Rows

    constructor (rows: Rows)
      ensures this.rows == rows
    {
      this.rows := rows;
    }

    /** `load_dependency_outputs`: the outputs in the order asked for, or the first reason there is none. */
    method LoadOutputs(run: nat, expected: seq<Text>) returns (r: Result<seq<DependencyOutput>, ResolveError>)
      ensures r == LoadDependencyOutputs(rows, run, expected)
    {
      var duplicate := FindDuplicate(expected);
      if duplicate {
        return Err(DuplicateExpected);
      }
      var outputs: seq<DependencyOutput> := [];
      assert expected[..0] == [];
      for i := 0 to |expected|
        invariant LoadAll(rows, run, expected[..i]) == Ok(outputs)
      {
        assert expected[..i + 1][..i] == expected[..i];
        var output := LoadDependency(rows, run, expected[i]);
        if output.Err? {
          LoadFailureSticks(rows, run, expected, i + 1);
          return Err(output.error);
        }
        outputs := outputs + [output.value];
      }
      assert expected[..|expected|] == expected;
      r := Ok(outputs);
    }

    method ResolveStage(run: nat, stage: Stage) returns (r: Result<Resolution, ResolveError>)
      ensures r == Resolve(rows, run, stage)
    {
      hide InputHash, ConfigHash, LoadDependencyOutputs, FindReusable;
      var loaded := LoadOutputs(run, stage.dependencies);
      if loaded.Err? {
        return Err(loaded.error);
      }
      var inputHash := BuildResolvedInputHash(stage.inputs(loaded.value), stage.dependencies, loaded.value);
      if inputHash.Err? {
        return Err(IncompleteProvenance(inputHash.error));
      }
      var configHash := BuildConfigHash(stage.config);
      if configHash.Err? {
        return Err(IncompleteProvenance(configHash.error));
      }
      var identity := Identity(stage.name, stage.version, inputHash.value, configHash.value);
      var reusable := FindReusable(rows, run, identity);
      if reusable.Err? {
        return Err(reusable.error);
      }
      r := Ok(Resolution(identity, loaded.value, reusable.value));
    }
  }

  lemma {:induction false} LoadFailureSticks(rows: Rows, run: nat, names: seq<Text>, i: nat)
    requires i <= |names| && LoadAll(rows, run, names[..i]).Err?
    ensures LoadAll(rows, run, names) == LoadAll(rows, run, names[..i])
    decreases |names| - i
  {
    if i == |names| {
      assert names[..i] == names;
    } else {
      assert names[..i + 1][..i] == names[..i];
      LoadFailureSticks(rows, run, names, i + 1);
    }
  }

  /** Only rows of the same run matter. */
  lemma {:induction false} OtherRunsDoNotMatter(rows: Rows, rows': Rows, run: nat, stage: Stage)
    requires forall name :: RowKey(run, name) in rows <==> RowKey(run, name) in rows'
    requires forall name | RowKey(run, name) in rows :: rows[RowKey(run, name)] == rows'[RowKey(run, name)]
    ensures Resolve(rows, run, stage) == Resolve(rows', run, stage)
  {
    hide InputHash, ConfigHash;
    LoadsSame(rows, rows', run, stage.dependencies);
  }

  lemma {:induction false} LoadsSame(rows: Rows, rows': Rows, run: nat, names: seq<Text>)
    requires forall name :: RowKey(run, name) in rows <==> RowKey(run, name) in rows'
    requires forall name | RowKey(run, name) in rows :: rows[RowKey(run, name)] == rows'[RowKey(run, name)]
    ensures LoadAll(rows, run, names) == LoadAll(rows', run, names)
  {
    if names != [] {
      LoadsSame(rows, rows', run, names[..|names| - 1]);
    }
  }
}
