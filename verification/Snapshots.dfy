/**
 * The builder of territory snapshots: it groups the dataset versions linked to a run into layers of
 * references. What it builds is what the road reader reads: the two agree on every reference.
 */
module Snapshots {
  import opened Prelude
  import opened SourceReference
  import opened FixedRoads

  /** A dataset version linked to the run, as the query returns it. */
  datatype LinkedVersion = LinkedVersion(id: Uuid, row: VersionRow)

  datatype AssemblyError = PipelineContextAssemblyError

  const OSM_KINDS: seq<LayerKind> := [Roads, Buildings, Facilities, Landuse, Water, Constraints]

  const ALL_KINDS: set<LayerKind> := {Roads, Buildings, Facilities, Landuse, Zones, Water, Constraints, Dem, Demography}

  function Filled(db: Database, id: Uuid, kinds: seq<LayerKind>): seq<LayerKind> {
    if kinds == [] then []
    else (if (kinds[0], id) in db.filled then [kinds[0]] else []) + Filled(db, id, kinds[1..])
  }

  /** `_DATASET_KIND_TO_SNAPSHOT_KIND`. */
  function KindNamed(name: string): Option<LayerKind> {
    if name == "roads" then Some(Roads)
    else if name == "buildings" then Some(Buildings)
    else if name == "facilities" then Some(Facilities)
    else if name == "landuse" then Some(Landuse)
    else if name == "zones" then Some(Zones)
    else if name == "water" then Some(Water)
    else if name == "constraints" then Some(Constraints)
    else if name == "dem" then Some(Dem)
    else if name == "demography" then Some(Demography)
    else None
  }

  /** The layers a version belongs to: those an OSM import filled, or the one of its dataset kind. */
  function KindsOf(db: Database, linked: LinkedVersion): seq<LayerKind> {
    if linked.row.kind == "osm" then Filled(db, linked.id, OSM_KINDS)
    else
      var kind := KindNamed(linked.row.kind);
      if kind.None? then [] else [kind.value]
  }

  /** What an OSM version owns is decided by its tables alone, and no layer is listed twice. */
  lemma {:induction false} FilledHolds(db: Database, id: Uuid, kinds: seq<LayerKind>)
    requires forall i, j | 0 <= i < j < |kinds| :: kinds[i] != kinds[j]
    ensures forall k :: k in Filled(db, id, kinds) <==> k in kinds && (k, id) in db.filled
    ensures forall i, j | 0 <= i < j < |Filled(db, id, kinds)| :: Filled(db, id, kinds)[i] != Filled(db, id, kinds)[j]
  {
    if kinds != [] {
      assert forall i, j | 0 <= i < j < |kinds[1..]| :: kinds[1..][i] == kinds[i + 1] && kinds[1..][j] == kinds[j + 1];
      FilledHolds(db, id, kinds[1..]);
      assert kinds[0] !in kinds[1..];
    }
  }

  lemma KindsAreDistinct(db: Database, linked: LinkedVersion)
    ensures forall i, j | 0 <= i < j < |KindsOf(db, linked)| :: KindsOf(db, linked)[i] != KindsOf(db, linked)[j]
    ensures forall k | k in KindsOf(db, linked) :: k in ALL_KINDS
    ensures Roads in KindsOf(db, linked) ==> linked.row.kind in {"roads", "osm"}
  {
    FilledHolds(db, linked.id, OSM_KINDS);
  }

  /** The dataset kind that stands for a layer. */
  function KindName(kind: LayerKind): string {
    match kind
    case Roads => "roads"
    case Buildings => "buildings"
    case Facilities => "facilities"
    case Landuse => "landuse"
    case Zones => "zones"
    case Water => "water"
    case Constraints => "constraints"
    case Dem => "dem"
    case Demography => "demography"
  }

  /** A version belongs to the layer named as its dataset kind; an OSM import to every layer whose table it fills, of those that have one. */
  predicate Belongs(db: Database, linked: LinkedVersion, kind: LayerKind) {
    if linked.row.kind == "osm" then (kind, linked.id) in db.filled && kind !in {Zones, Dem, Demography}
    else linked.row.kind == KindName(kind)
  }

  lemma KindsExactly(db: Database, linked: LinkedVersion, kind: LayerKind)
    ensures kind in KindsOf(db, linked) <==> Belongs(db, linked, kind)
    ensures kind in ALL_KINDS
  {
    hide KindNamed, KindName, Filled;
    FilledHolds(db, linked.id, OSM_KINDS);
    if linked.row.kind != "osm" {
      NamedExactly(linked.row.kind, kind);
    }
  }

  lemma NamedExactly(name: string, kind: LayerKind)
    ensures KindNamed(name) == Some(kind) <==> name == KindName(kind)
  {
    assert "roads"[0] == 'r' && "buildings"[0] == 'b' && "facilities"[0] == 'f' && "landuse"[0] == 'l' && "zones"[0] == 'z';
    assert "water"[0] == 'w' && "constraints"[0] == 'c' && |"dem"| == 3 && "dem"[0] == "demography"[0] == 'd' && |"demography"| == 10;
  }

  /** A version is accepted exactly when it is ready, of the project, and belongs to some layer. */
  lemma AcceptableExactlyWhen(db: Database, projectId: Uuid, linked: LinkedVersion)
    ensures Acceptable(db, projectId, linked) <==>
      linked.row.projectId == projectId && linked.row.status == "ready" && exists kind :: Belongs(db, linked, kind)
  {
    hide Belongs;
    forall kind
      ensures kind in KindsOf(db, linked) <==> Belongs(db, linked, kind)
    {
      KindsExactly(db, linked, kind);
    }
    hide KindsOf;
    if KindsOf(db, linked) != [] {
      assert Belongs(db, linked, KindsOf(db, linked)[0]);
    }
  }

  function ReferenceTo(linked: LinkedVersion): string { Printed(linked.id, linked.row.version) }

  /** The versions of a layer, in the order of the query. */
  function LayerVersions(db: Database, linked: seq<LinkedVersion>, kind: LayerKind): seq<LinkedVersion> {
    if linked == [] then []
    else
      var last := linked[|linked| - 1];
      LayerVersions(db, linked[..|linked| - 1], kind) + (if kind in KindsOf(db, last) then [last] else [])
  }

  function References(versions: seq<LinkedVersion>): seq<string> {
    seq(|versions|, i requires 0 <= i < |versions| => ReferenceTo(versions[i]))
  }

  /** The run and its project agree: the checks made before anything is assembled. */
  predicate Consistent(db: Database, runId: Uuid) {
    && runId in db.runs && db.runs[runId].projectId in db.projects
    && var project := db.projects[db.runs[runId].projectId];
    project.srid == db.runs[runId].srid && project.boundarySrid == Some(db.runs[runId].srid)
  }

  predicate Acceptable(db: Database, projectId: Uuid, linked: LinkedVersion) {
    linked.row.projectId == projectId && linked.row.status == "ready" && KindsOf(db, linked) != []
  }

  /** Each version has joined each of its layers once, in the order of the query. */
  predicate AreLayers(db: Database, linked: seq<LinkedVersion>, layers: map<LayerKind, seq<string>>) {
    layers.Keys == ALL_KINDS && forall kind | kind in ALL_KINDS :: layers[kind] == References(LayerVersions(db, linked, kind))
  }

  predicate AllAcceptable(db: Database, projectId: Uuid, linked: seq<LinkedVersion>) {
    forall v | v in linked :: Acceptable(db, projectId, v)
  }

  lemma LayersGrow(db: Database, linked: seq<LinkedVersion>, version: LinkedVersion, before: map<LayerKind, seq<string>>,
                   after: map<LayerKind, seq<string>>)
    requires AreLayers(db, linked, before) && after.Keys == ALL_KINDS
    requires forall kind | kind in ALL_KINDS ::
      after[kind] == before[kind] + (if kind in KindsOf(db, version) then [ReferenceTo(version)] else [])
    ensures AreLayers(db, linked + [version], after)
  {
    hide KindsOf, ReferenceTo;
    var all := linked + [version];
    assert all[..|all| - 1] == linked;
    forall kind | kind in ALL_KINDS
      ensures after[kind] == References(LayerVersions(db, all, kind))
    {
      var versions := LayerVersions(db, linked, kind);
      assert References(versions + [version]) == References(versions) + [ReferenceTo(version)];
    }
  }

  method BuildLayers(db: Database, projectId: Uuid, linked: seq<LinkedVersion>)
    returns (r: Result<map<LayerKind, seq<string>>, AssemblyError>)
    ensures r.Ok? <==> AllAcceptable(db, projectId, linked)
    ensures r.Ok? ==> AreLayers(db, linked, r.value)
  {
    hide KindsOf, ReferenceTo, AreLayers;
    var layers: map<LayerKind, seq<string>> := map kind | kind in ALL_KINDS :: [];
    NoLayersYet(db, layers);
    assert linked[..0] == [];
    for n := 0 to |linked|
      invariant AreLayers(db, linked[..n], layers)
      invariant AllAcceptable(db, projectId, linked[..n])
    {
      LayersHaveAllKinds(db, linked[..n], layers);
      var version := linked[n];
      assert version in linked;
      assert linked[..n + 1] == linked[..n] + [version];
      if version.row.projectId != projectId || version.row.status != "ready" || KindsOf(db, version) == [] {
        return Err(PipelineContextAssemblyError);
      }
      var before := layers;
      layers := AppendTo(layers, KindsOf(db, version), ReferenceTo(version), db, version);
      LayersGrow(db, linked[..n], version, before, layers);
    }
    assert linked[..|linked|] == linked;
    r := Ok(layers);
  }

  lemma NoLayersYet(db: Database, layers: map<LayerKind, seq<string>>)
    requires layers.Keys == ALL_KINDS && forall kind | kind in ALL_KINDS :: layers[kind] == []
    ensures AreLayers(db, [], layers)
  {
  }

  lemma LayersHaveAllKinds(db: Database, linked: seq<LinkedVersion>, layers: map<LayerKind, seq<string>>)
    requires AreLayers(db, linked, layers)
    ensures layers.Keys == ALL_KINDS
  {
  }

  /** `_build_snapshot`, after the checks on the run and its project. */
  method BuildSnapshot(db: Database, runId: Uuid, linked: seq<LinkedVersion>) returns (r: Result<Snapshot, AssemblyError>)
    ensures r.Ok? <==> Consistent(db, runId) && AllAcceptable(db, db.runs[runId].projectId, linked)
    ensures r.Ok? ==> IsSnapshotOf(db, runId, linked, r.value)
    ensures r.Ok? ==>
      && r.value.snapshotId == runId && r.value.projectId == db.runs[runId].projectId && r.value.projectId in db.projects
      && r.value.srid == db.runs[runId].srid == db.projects[r.value.projectId].srid
      && db.projects[r.value.projectId].boundarySrid == Some(r.value.srid)
    ensures r.Err? ==>
      || runId !in db.runs || db.runs[runId].projectId !in db.projects
      || db.projects[db.runs[runId].projectId].srid != db.runs[runId].srid
      || db.projects[db.runs[runId].projectId].boundarySrid != Some(db.runs[runId].srid)
      || exists v | v in linked :: v.row.projectId != db.runs[runId].projectId || v.row.status != "ready" || forall kind :: !Belongs(db, v, kind)
  {
    if !Consistent(db, runId) {
      return Err(PipelineContextAssemblyError);
    }
    var run := db.runs[runId];
    var layers := BuildLayers(db, run.projectId, linked);
    if layers.Err? {
      var v :| v in linked && !Acceptable(db, run.projectId, v);
      AcceptableExactlyWhen(db, run.projectId, v);
    }
    r := if layers.Err? then Err(layers.error) else Ok(Snapshot(runId, run.projectId, run.srid, layers.value));
  }

  /** What is built when nothing is refused. */
  predicate IsSnapshotOf(db: Database, runId: Uuid, linked: seq<LinkedVersion>, s: Snapshot) {
    && runId in db.runs && s.snapshotId == runId && s.projectId == db.runs[runId].projectId && s.srid == db.runs[runId].srid
    && AreLayers(db, linked, s.layers)
  }

  method AppendTo(layers: map<LayerKind, seq<string>>, kinds: seq<LayerKind>, reference: string, ghost db: Database,
                  ghost version: LinkedVersion)
    returns (r: map<LayerKind, seq<string>>)
    requires layers.Keys == ALL_KINDS && kinds == KindsOf(db, version)
    ensures r.Keys == ALL_KINDS
    ensures forall kind | kind in ALL_KINDS :: r[kind] == layers[kind] + (if kind in kinds then [reference] else [])
  {
    hide KindsOf;
    KindsAreDistinct(db, version);
    r := layers;
    for k := 0 to |kinds|
      invariant r.Keys == ALL_KINDS
      invariant forall kind | kind in ALL_KINDS :: r[kind] == layers[kind] + (if kind in kinds[..k] then [reference] else [])
    {
      assert kinds[k] in kinds && kinds[k] !in kinds[..k];
      r := r[kinds[k] := r[kinds[k]] + [reference]];
    }
    assert kinds[..|kinds|] == kinds;
  }

  // ----- Builder and reader agree -----

  /** The linked versions are what the database holds for the run, each version once, with a version number. */
  ghost predicate IsQueryResult(db: Database, runId: Uuid, linked: seq<LinkedVersion>) {
    && runId in db.runs
    && (forall v | v in linked :: v.row.version > 0 && v.id in db.versions && db.versions[v.id] == v.row && v.id in db.runs[runId].versions)
    && DifferentIds(linked)
  }

  lemma {:induction false} LayerVersionsHold(db: Database, linked: seq<LinkedVersion>, kind: LayerKind)
    ensures forall v :: v in LayerVersions(db, linked, kind) <==> v in linked && kind in KindsOf(db, v)
  {
    hide KindsOf;
    if linked != [] {
      LayerVersionsHold(db, linked[..|linked| - 1], kind);
      assert linked == linked[..|linked| - 1] + [linked[|linked| - 1]];
    }
  }

  /** What a built snapshot holds, layer by layer: the reference of a version exactly when the version belongs to the layer. */
  lemma LayersHoldWhatBelongs(db: Database, runId: Uuid, linked: seq<LinkedVersion>, s: Snapshot, kind: LayerKind, reference: string)
    requires IsSnapshotOf(db, runId, linked, s)
    ensures kind in s.layers
    ensures reference in s.layers[kind] <==>
      exists v | v in linked :: Belongs(db, v, kind) && reference == Printed(v.id, v.row.version)
  {
    hide KindsOf, Printed, Belongs, LayerVersions;
    forall v
      ensures kind in ALL_KINDS && (kind in KindsOf(db, v) <==> Belongs(db, v, kind))
    {
      KindsExactly(db, v, kind);
    }
    LayerVersionsHold(db, linked, kind);
    var versions := LayerVersions(db, linked, kind);
    if v :| v in linked && Belongs(db, v, kind) && reference == Printed(v.id, v.row.version) {
      var i :| 0 <= i < |versions| && versions[i] == v;
      assert s.layers[kind][i] == reference;
    }
    if reference in s.layers[kind] {
      var i :| 0 <= i < |s.layers[kind]| && s.layers[kind][i] == reference;
      assert versions[i] in versions;
    }
  }

  /** A layer lists its versions in the order of the query. */
  lemma {:induction false} LayersKeepOrder(db: Database, linked: seq<LinkedVersion>, kind: LayerKind, i: nat, j: nat)
    requires i < j < |LayerVersions(db, linked, kind)|
    ensures exists a, b :: 0 <= a < b < |linked| && linked[a] == LayerVersions(db, linked, kind)[i] && linked[b] == LayerVersions(db, linked, kind)[j]
  {
    hide KindsOf;
    var init, versions := linked[..|linked| - 1], LayerVersions(db, linked, kind);
    var before := LayerVersions(db, init, kind);
    if j < |before| {
      LayersKeepOrder(db, init, kind, i, j);
      var a, b :| 0 <= a < b < |init| && init[a] == before[i] && init[b] == before[j];
      assert linked[a] == versions[i] && linked[b] == versions[j];
    } else {
      LayerVersionsHold(db, init, kind);
      assert before[i] in before;
      var a :| 0 <= a < |init| && init[a] == before[i];
      assert linked[a] == versions[i] && linked[|linked| - 1] == versions[j];
    }
  }

  predicate DifferentIds(versions: seq<LinkedVersion>) {
    forall i, j | 0 <= i < j < |versions| :: versions[i].id != versions[j].id
  }

  lemma {:induction false} LayerVersionsDiffer(db: Database, linked: seq<LinkedVersion>, kind: LayerKind)
    requires DifferentIds(linked)
    ensures DifferentIds(LayerVersions(db, linked, kind))
  {
    hide KindsOf;
    if linked != [] {
      var init, last := linked[..|linked| - 1], linked[|linked| - 1];
      LayerVersionsDiffer(db, init, kind);
      LayerVersionsHold(db, init, kind);
      forall v | v in LayerVersions(db, init, kind)
        ensures v.id != last.id
      {
        var i :| 0 <= i < |init| && init[i] == v;
        assert linked[i] == v;
      }
    }
  }

  /** The road layer of a built snapshot, read back: each reference is one version, and the reader may read it. */
  lemma RoadLayerReadsBack(db: Database, runId: Uuid, linked: seq<LinkedVersion>, s: Snapshot, lib: Parsers, k: nat)
    requires lib.ReadWhatIsPrinted() && Consistent(db, runId) && IsQueryResult(db, runId, linked)
    requires AllAcceptable(db, db.runs[runId].projectId, linked) && IsSnapshotOf(db, runId, linked, s)
    requires k < |s.RoadLayer()|
    ensures var v := LayerVersions(db, linked, Roads)[k];
      && SourceVersion(s.RoadLayer()[k], lib) == Ok((v.id, v.row.version))
      && db.Authorizes(s, v.id, v.row.version)
  {
    hide KindsOf, Printed, SourceVersion;
    var versions := LayerVersions(db, linked, Roads);
    var v := versions[k];
    LayerVersionsHold(db, linked, Roads);
    assert v in versions;
    KindsAreDistinct(db, v);
    PrintedReadsBack(v.id, v.row.version, lib);
  }

  /** Every row the reader would read for the run. */
  ghost predicate RowsUsable(db: Database, versions: seq<LinkedVersion>, srid: int) {
    forall v, row | v in versions && row in db.RoadsOf(v.id) :: Usable(row, srid)
  }

  function RoadCount(db: Database, versions: seq<LinkedVersion>): nat {
    if versions == [] then 0 else RoadCount(db, versions[..|versions| - 1]) + |db.RoadsOf(versions[|versions| - 1].id)|
  }

  lemma {:induction false} CountsAgree(db: Database, versions: seq<LinkedVersion>, lib: Parsers)
    requires lib.ReadWhatIsPrinted() && forall v | v in versions :: v.row.version > 0
    ensures Parses(References(versions), lib) && RowCount(db, References(versions), lib) == RoadCount(db, versions)
  {
    hide Printed, SourceVersion;
    forall k | 0 <= k < |versions|
      ensures SourceVersion(References(versions)[k], lib) == Ok((versions[k].id, versions[k].row.version))
    {
      assert versions[k] in versions;
      PrintedReadsBack(versions[k].id, versions[k].row.version, lib);
    }
    if versions != [] {
      CountsAgree(db, versions[..|versions| - 1], lib);
      assert References(versions)[..|versions| - 1] == References(versions[..|versions| - 1]);
    }
  }

  /**
   * Over an unchanged database, the reader refuses a snapshot the builder made only for its rows: when they
   * are more than the limit or one is not a usable road. No reference of it is malformed, repeated or denied.
   */
  lemma BuiltSnapshotIsRefusedOnlyForItsRows(db: Database, runId: Uuid, linked: seq<LinkedVersion>, s: Snapshot, maxRoads: nat, lib: Parsers)
    requires lib.ReadWhatIsPrinted() && Consistent(db, runId) && IsQueryResult(db, runId, linked)
    requires AllAcceptable(db, db.runs[runId].projectId, linked) && IsSnapshotOf(db, runId, linked, s)
    ensures var versions := LayerVersions(db, linked, Roads);
      Readable(db, s, maxRoads, lib) <==> RoadCount(db, versions) <= maxRoads && RowsUsable(db, versions, s.srid)
  {
    hide KindsOf, Printed, SourceVersion, Usable, LayerVersions, AllRoads, RowCount, Consistent, Acceptable;
    var versions, references := LayerVersions(db, linked, Roads), s.RoadLayer();
    LayerVersionsHold(db, linked, Roads);
    LayerVersionsDiffer(db, linked, Roads);
    CountsAgree(db, versions, lib);
    AllRoadsIsComplete(db, references, lib);
    assert references[..|references|] == references;
    forall k | 0 <= k < |references|
      ensures SourceVersion(references[k], lib) == Ok((versions[k].id, versions[k].row.version))
      ensures db.Authorizes(s, versions[k].id, versions[k].row.version)
    {
      RoadLayerReadsBack(db, runId, linked, s, lib, k);
    }
    if Readable(db, s, maxRoads, lib) {
      forall v, row | v in versions && row in db.RoadsOf(v.id)
        ensures Usable(row, s.srid)
      {
        var k :| 0 <= k < |versions| && versions[k] == v;
        assert ReferenceReadable(db, s, lib, references[k]);
      }
    }
    if RoadCount(db, versions) <= maxRoads && RowsUsable(db, versions, s.srid) {
      forall k | 0 <= k < |references|
        ensures ReferenceReadable(db, s, lib, references[k])
      {
        assert versions[k] in versions;
      }
    }
  }
}
