/**
 * The fixed roads of a snapshot: the reader turns the references of the road layer into all the roads they
 * stand for, within a budget, or refuses; it never returns a sample.
 */
module FixedRoads {
  import opened Prelude
  import opened SourceReference

  // ----- The rows behind the queries -----

  datatype LayerKind = Roads | Buildings | Facilities | Landuse | Zones | Water | Constraints | Dem | Demography

  datatype VersionRow = VersionRow(version: nat, status: string, kind: string, projectId: Uuid)

  datatype RunRow = RunRow(projectId: Uuid, srid: int, versions: set<Uuid>)

  datatype ProjectRow = ProjectRow(srid: int, boundarySrid: Option<int>)

  datatype Shape = LineString | MultiLineString | OtherShape

  datatype Geometry = Geometry(srid: int, shape: Shape, empty: bool, valid: bool, length: real, points: seq<(real, real)>)

  datatype RoadRow = RoadRow(id: Uuid, featureId: Option<string>, geometry: Geometry, layer: int, bridge: bool,
                             tunnel: bool, roadClass: Option<string>)

  /** `roads` holds, per version, the rows that touch the project boundary, in the order of the query. */
  datatype Database = Database(versions: map<Uuid, VersionRow>, runs: map<Uuid, RunRow>, projects: map<Uuid, ProjectRow>,
                               roads: map<Uuid, seq<RoadRow>>, filled: set<(LayerKind, Uuid)>)
  {
    function RoadsOf(id: Uuid): seq<RoadRow> { if id in roads then roads[id] else [] }

    /** The authorization query: a ready road version of the run's own project, in the run's metric system. */
    predicate Authorizes(s: Snapshot, id: Uuid, version: int) {
      && id in versions && versions[id].version == version && versions[id].status == "ready"
      && versions[id].kind in {"roads", "osm"}
      && s.snapshotId in runs && id in runs[s.snapshotId].versions
      && runs[s.snapshotId].projectId == s.projectId && runs[s.snapshotId].srid == s.srid
      && versions[id].projectId == s.projectId && s.projectId in projects
      && projects[s.projectId].srid == s.srid && projects[s.projectId].boundarySrid.Some?
    }
  }

  datatype Snapshot = Snapshot(snapshotId: Uuid, projectId: Uuid, srid: int, layers: map<LayerKind, seq<string>>)
  {
    function RoadLayer(): seq<string> { if Roads in layers then layers[Roads] else [] }
  }

  // ----- Reading the roads of a snapshot -----

  datatype FixedRoad = FixedRoad(roadId: string, geometry: Geometry, layer: int, bridge: bool, tunnel: bool,
                                 existingClass: Option<string>)

  predicate Usable(row: RoadRow, srid: int) {
    && row.geometry.srid == srid && !row.geometry.shape.OtherShape?
    && !row.geometry.empty && row.geometry.valid && row.geometry.length > 0.0
  }

  function Hydrated(id: Uuid, row: RoadRow): FixedRoad {
    var name := if row.featureId.Some? && row.featureId.value != "" then row.featureId.value else UuidText(row.id);
    FixedRoad("fixed:" + UuidText(id) + ":" + name, row.geometry, row.layer, row.bridge, row.tunnel, row.roadClass)
  }

  /** A row is usable exactly when nothing is wrong with it. */
  lemma UsableExactlyWhen(row: RoadRow, srid: int)
    ensures !Usable(row, srid) <==>
      || row.geometry.srid != srid || (row.geometry.shape != LineString && row.geometry.shape != MultiLineString)
      || row.geometry.empty || !row.geometry.valid || row.geometry.length <= 0.0
  {
  }

  /** A road keeps what its row says, unchanged, and is named after its version and its feature, or else its row. */
  lemma RoadsKeepTheirRows(id: Uuid, row: RoadRow)
    ensures var road := Hydrated(id, row);
      && road.geometry == row.geometry && road.layer == row.layer && road.bridge == row.bridge && road.tunnel == row.tunnel
      && road.existingClass == row.roadClass
      && (row.featureId.Some? && row.featureId.value != "" ==> road.roadId == "fixed:" + UuidText(id) + ":" + row.featureId.value)
      && (row.featureId.None? || row.featureId.value == "" ==> road.roadId == "fixed:" + UuidText(id) + ":" + UuidText(row.id))
  {
  }

  /** Roads of different versions never share an identifier. */
  lemma RoadIdsTellVersionsApart(a: Uuid, r: RoadRow, b: Uuid, s: RoadRow)
    ensures Hydrated(a, r).roadId == Hydrated(b, s).roadId ==> a == b
  {
    hide UuidOf;
    UuidReadsBack(a);
    UuidReadsBack(b);
    var first, second := Hydrated(a, r).roadId, Hydrated(b, s).roadId;
    assert first[6..42] == UuidText(a) && second[6..42] == UuidText(b);
  }

  function HydratedAll(id: Uuid, rows: seq<RoadRow>): seq<FixedRoad> {
    seq(|rows|, i requires 0 <= i < |rows| => Hydrated(id, rows[i]))
  }

  predicate Parses(references: seq<string>, lib: Parsers) {
    forall k | 0 <= k < |references| :: SourceVersion(references[k], lib).Ok?
  }

  function IdOf(reference: string, lib: Parsers): Uuid
    requires SourceVersion(reference, lib).Ok?
  {
    SourceVersion(reference, lib).value.0
  }

  /** Every road row of every referenced version, version by version. */
  function AllRoads(db: Database, references: seq<string>, lib: Parsers): seq<FixedRoad>
    requires Parses(references, lib)
  {
    if references == [] then []
    else
      var id := IdOf(references[|references| - 1], lib);
      AllRoads(db, references[..|references| - 1], lib) + HydratedAll(id, db.RoadsOf(id))
  }

  /** The first `n` references identify different, authorized versions with usable rows, `maxRoads` at most in all. */
  predicate ReadableUpTo(db: Database, s: Snapshot, maxRoads: nat, lib: Parsers, n: nat)
    requires n <= |s.RoadLayer()|
  {
    var references := s.RoadLayer()[..n];
    && Parses(references, lib)
    && (forall i, j | 0 <= i < j < n :: IdOf(references[i], lib) != IdOf(references[j], lib))
    && (forall k | 0 <= k < n :: ReferenceReadable(db, s, lib, references[k]))
    && |AllRoads(db, references, lib)| <= maxRoads
  }

  predicate ReferenceReadable(db: Database, s: Snapshot, lib: Parsers, reference: string)
    requires SourceVersion(reference, lib).Ok?
  {
    var (id, version) := SourceVersion(reference, lib).value;
    db.Authorizes(s, id, version) && forall row | row in db.RoadsOf(id) :: Usable(row, s.srid)
  }

  predicate Readable(db: Database, s: Snapshot, maxRoads: nat, lib: Parsers) {
    ReadableUpTo(db, s, maxRoads, lib, |s.RoadLayer()|)
  }

  lemma AllRoadsGrows(db: Database, references: seq<string>, lib: Parsers, n: nat)
    requires n <= |references| && Parses(references, lib)
    ensures Parses(references[..n], lib) && |AllRoads(db, references[..n], lib)| <= |AllRoads(db, references, lib)|
    decreases |references|
  {
    if n == |references| {
      assert references[..n] == references;
    } else {
      var init := references[..|references| - 1];
      AllRoadsGrows(db, init, lib, n);
      assert init[..n] == references[..n];
    }
  }

  lemma HydratedHolds(id: Uuid, rows: seq<RoadRow>)
    ensures |HydratedAll(id, rows)| == |rows|
    ensures forall row | row in rows :: Hydrated(id, row) in HydratedAll(id, rows)
    ensures forall road | road in HydratedAll(id, rows) :: exists row :: row in rows && road == Hydrated(id, row)
  {
    hide Hydrated;
    forall row | row in rows
      ensures Hydrated(id, row) in HydratedAll(id, rows)
    {
      var i :| 0 <= i < |rows| && rows[i] == row;
      assert HydratedAll(id, rows)[i] == Hydrated(id, row);
    }
    forall road | road in HydratedAll(id, rows)
      ensures exists row :: row in rows && road == Hydrated(id, row)
    {
      var i :| 0 <= i < |rows| && HydratedAll(id, rows)[i] == road;
      assert rows[i] in rows;
    }
  }

  /** Nothing is sampled: every row of every referenced version is among the roads, and nothing else is. */
  lemma {:induction false} AllRoadsIsComplete(db: Database, references: seq<string>, lib: Parsers)
    requires Parses(references, lib)
    ensures |AllRoads(db, references, lib)| == RowCount(db, references, lib)
    ensures forall k, row | 0 <= k < |references| && row in db.RoadsOf(IdOf(references[k], lib)) ::
      Hydrated(IdOf(references[k], lib), row) in AllRoads(db, references, lib)
    ensures forall road | road in AllRoads(db, references, lib) :: ComesFromRow(db, references, lib, road)
  {
    hide SourceVersion, Hydrated, HydratedAll;
    if references != [] {
      var init, last := references[..|references| - 1], references[|references| - 1];
      AllRoadsIsComplete(db, init, lib);
      var id := IdOf(last, lib);
      HydratedHolds(id, db.RoadsOf(id));
      forall road | road in AllRoads(db, references, lib)
        ensures ComesFromRow(db, references, lib, road)
      {
        if road in AllRoads(db, init, lib) {
          assert ComesFromRow(db, init, lib, road);
          var k, row :| 0 <= k < |init| && row in db.RoadsOf(IdOf(init[k], lib)) && road == Hydrated(IdOf(init[k], lib), row);
          assert references[k] == init[k];
        } else {
          var row :| row in db.RoadsOf(id) && road == Hydrated(id, row);
          assert references[|references| - 1] == last;
        }
      }
    }
  }

  lemma ParsesInTurn(a: seq<string>, b: seq<string>, lib: Parsers)
    requires Parses(a, lib) && Parses(b, lib)
    ensures Parses(a + b, lib)
  {
    hide SourceVersion;
  }

  lemma ParsesOne(reference: string, lib: Parsers)
    requires SourceVersion(reference, lib).Ok?
    ensures Parses([reference], lib) && Parses([], lib)
  {
    hide SourceVersion;
  }

  lemma ParsesFront(references: seq<string>, lib: Parsers)
    requires references != [] && Parses(references, lib)
    ensures Parses(references[..|references| - 1], lib) && SourceVersion(references[|references| - 1], lib).Ok?
  {
    hide SourceVersion;
  }

  lemma AppendedRoads(db: Database, references: seq<string>, last: string, lib: Parsers)
    requires Parses(references, lib) && Parses(references + [last], lib) && SourceVersion(last, lib).Ok?
    ensures AllRoads(db, references + [last], lib) == AllRoads(db, references, lib) + HydratedAll(IdOf(last, lib), db.RoadsOf(IdOf(last, lib)))
  {
    hide SourceVersion, HydratedAll, Parses, IdOf;
    assert (references + [last])[..|references|] == references;
  }

  /** References are read one after the other. */
  lemma {:induction false} AllRoadsInOrder(db: Database, a: seq<string>, b: seq<string>, lib: Parsers)
    requires Parses(a, lib) && Parses(b, lib)
    ensures Parses(a + b, lib) && AllRoads(db, a + b, lib) == AllRoads(db, a, lib) + AllRoads(db, b, lib)
    decreases |b|
  {
    hide SourceVersion, HydratedAll, Parses, AllRoads, IdOf;
    ParsesInTurn(a, b, lib);
    if b == [] {
      NoRoads(db, b, lib);
      assert a + b == a;
    } else {
      var init, last := b[..|b| - 1], b[|b| - 1];
      ParsesFront(b, lib);
      AllRoadsInOrder(db, a, init, lib);
      assert b == init + [last] && a + b == (a + init) + [last];
      AppendedRoads(db, init, last, lib);
      AppendedRoads(db, a + init, last, lib);
    }
  }

  lemma NoRoads(db: Database, references: seq<string>, lib: Parsers)
    requires Parses(references, lib) && references == []
    ensures AllRoads(db, references, lib) == []
  {
  }

  /** And the rows of each in the order of their query. */
  lemma RowsInOrder(db: Database, reference: string, lib: Parsers)
    requires SourceVersion(reference, lib).Ok?
    ensures Parses([reference], lib)
    ensures AllRoads(db, [reference], lib) == HydratedAll(IdOf(reference, lib), db.RoadsOf(IdOf(reference, lib)))
    ensures var id := IdOf(reference, lib);
      |AllRoads(db, [reference], lib)| == |db.RoadsOf(id)|
      && forall i | 0 <= i < |db.RoadsOf(id)| :: AllRoads(db, [reference], lib)[i] == Hydrated(id, db.RoadsOf(id)[i])
  {
    hide SourceVersion, Hydrated, Parses, AllRoads, IdOf;
    ParsesOne(reference, lib);
    NoRoads(db, [], lib);
    assert [] + [reference] == [reference];
    AppendedRoads(db, [], reference, lib);
  }

  ghost predicate ComesFromRow(db: Database, references: seq<string>, lib: Parsers, road: FixedRoad)
    requires Parses(references, lib)
  {
    exists k, row :: 0 <= k < |references| && row in db.RoadsOf(IdOf(references[k], lib)) && road == Hydrated(IdOf(references[k], lib), row)
  }

  function RowCount(db: Database, references: seq<string>, lib: Parsers): nat
    requires Parses(references, lib)
  {
    if references == [] then 0
    else RowCount(db, references[..|references| - 1], lib) + |db.RoadsOf(IdOf(references[|references| - 1], lib))|
  }

  /**
   * What is read is the run's own: every road comes from a ready road version of the project, linked to the run, and is
   * a valid line of positive length in the metric system of run and project; and no version is read twice.
   */
  lemma ReadRoadsAreTheRunsOwn(db: Database, s: Snapshot, maxRoads: nat, lib: Parsers, k: nat)
    requires Readable(db, s, maxRoads, lib) && k < |s.RoadLayer()|
    ensures SourceVersion(s.RoadLayer()[k], lib).Ok?
    ensures var (id, version) := SourceVersion(s.RoadLayer()[k], lib).value;
      && id in db.versions && db.versions[id].version == version && db.versions[id].status == "ready"
      && (db.versions[id].kind == "roads" || db.versions[id].kind == "osm") && db.versions[id].projectId == s.projectId
      && s.snapshotId in db.runs && id in db.runs[s.snapshotId].versions && db.runs[s.snapshotId].projectId == s.projectId
      && s.projectId in db.projects && db.projects[s.projectId].boundarySrid.Some?
      && s.srid == db.runs[s.snapshotId].srid == db.projects[s.projectId].srid
      && (forall row | row in db.RoadsOf(id) ::
            row.geometry.srid == s.srid && row.geometry.length > 0.0 && row.geometry.valid && !row.geometry.empty && !row.geometry.shape.OtherShape?)
      && (forall j | 0 <= j < k :: SourceVersion(s.RoadLayer()[j], lib).Ok? && SourceVersion(s.RoadLayer()[j], lib).value.0 != id)
  {
    hide SourceVersion, AllRoads;
    var references := s.RoadLayer();
    assert references[..|references|] == references;
    assert ReferenceReadable(db, s, lib, references[k]);
    forall j | 0 <= j < k
      ensures IdOf(references[j], lib) != IdOf(references[k], lib)
    {
    }
  }

  /** A refusal at one reference is a refusal of the whole layer. */
  lemma UnreadablePrefix(db: Database, s: Snapshot, maxRoads: nat, lib: Parsers, n: nat)
    requires n <= |s.RoadLayer()| && !ReadableUpTo(db, s, maxRoads, lib, n)
    ensures !Readable(db, s, maxRoads, lib)
  {
    hide AllRoads, ReferenceReadable, SourceVersion;
    if Readable(db, s, maxRoads, lib) {
      var references := s.RoadLayer();
      assert references[..|references|] == references;
      AllRoadsGrows(db, references, lib, n);
      forall k | 0 <= k < n
        ensures references[..n][k] == references[k]
      {
      }
      assert false;
    }
  }

  predicate SeenBefore(references: seq<string>, lib: Parsers, n: nat, id: Uuid)
    requires n <= |references| && Parses(references[..n], lib)
  {
    exists i :: 0 <= i < n && IdOf(references[..n][i], lib) == id
  }

  /** What one more reference adds to the conditions, and to the roads. */
  lemma OneMoreReference(db: Database, s: Snapshot, maxRoads: nat, lib: Parsers, n: nat)
    requires n < |s.RoadLayer()| && ReadableUpTo(db, s, maxRoads, lib, n)
    ensures var references := s.RoadLayer();
      if SourceVersion(references[n], lib).Err? then !ReadableUpTo(db, s, maxRoads, lib, n + 1)
      else
        var id := IdOf(references[n], lib);
        && Parses(references[..n + 1], lib)
        && AllRoads(db, references[..n + 1], lib) == AllRoads(db, references[..n], lib) + HydratedAll(id, db.RoadsOf(id))
        && (ReadableUpTo(db, s, maxRoads, lib, n + 1) <==>
              && !SeenBefore(references, lib, n, id)
              && ReferenceReadable(db, s, lib, references[n])
              && |AllRoads(db, references[..n], lib)| + |db.RoadsOf(id)| <= maxRoads)
        && (forall other :: SeenBefore(references, lib, n + 1, other) <==> SeenBefore(references, lib, n, other) || other == id)
  {
    hide SourceVersion, ReferenceReadable;
    var references := s.RoadLayer();
    var more := references[..n + 1];
    assert more[n] == references[n] && more[..n] == references[..n];
    if SourceVersion(references[n], lib).Ok? {
      assert forall k | 0 <= k < n :: more[k] == references[..n][k];
      forall other
        ensures SeenBefore(references, lib, n + 1, other) <==> SeenBefore(references, lib, n, other) || other == IdOf(more[n], lib)
      {
        if SeenBefore(references, lib, n, other) {
          var i :| 0 <= i < n && IdOf(references[..n][i], lib) == other;
          assert IdOf(more[i], lib) == other;
        }
      }
    }
  }

  /**
   * All or nothing: the result is every road of the layer, in order and never more than `maxRoads`, exactly
   * when every condition holds; and never more than one row beyond the limit is fetched.
   */
  method Read(db: Database, s: Snapshot, maxRoads: nat, lib: Parsers)
    returns (r: Result<seq<FixedRoad>, ReadError>, ghost fetched: nat)
    ensures r.Ok? <==> Readable(db, s, maxRoads, lib)
    ensures r.Ok? ==> r.value == AllRoads(db, s.RoadLayer(), lib) && |r.value| <= maxRoads
    ensures fetched <= maxRoads + 1
  {
    hide SourceVersion, Usable, Hydrated, AllRoads, SeenBefore;
    fetched := 0;
    var references := s.RoadLayer();
    var hydrated: seq<FixedRoad> := [];
    var seen: set<Uuid> := {};
    NothingReadYet(db, references, lib);
    for n := 0 to |references|
      invariant ReadableUpTo(db, s, maxRoads, lib, n)
      invariant hydrated == AllRoads(db, references[..n], lib)
      invariant forall id :: id in seen <==> SeenBefore(references, lib, n, id)
      invariant fetched == |hydrated|
    {
      OneMoreReference(db, s, maxRoads, lib, n);
      if !ReadableUpTo(db, s, maxRoads, lib, n + 1) {
        UnreadablePrefix(db, s, maxRoads, lib, n + 1);
      }
      var version := SourceVersion(references[n], lib);
      if version.Err? {
        return Err(version.error), fetched;
      }
      var (id, number) := version.value;
      if id in seen {
        return Err(FixedRoadSourceReadError), fetched;
      }
      seen := seen + {id};
      if !db.Authorizes(s, id, number) {
        return Err(FixedRoadSourceReadError), fetched;
      }
      var remaining := maxRoads - |hydrated|;
      var rows := Limited(db.RoadsOf(id), remaining + 1);
      fetched := fetched + |rows|;
      if |rows| > remaining {
        return Err(FixedRoadSourceReadError), fetched;
      }
      var added := HydrateRows(id, rows, s.srid);
      if added.Err? {
        return Err(added.error), fetched;
      }
      hydrated := hydrated + added.value;
    }
    assert references[..|references|] == references;
    r := Ok(hydrated);
  }

  lemma NothingReadYet(db: Database, references: seq<string>, lib: Parsers)
    ensures Parses(references[..0], lib) && AllRoads(db, references[..0], lib) == []
    ensures forall id :: !SeenBefore(references, lib, 0, id)
  {
  }

  /** `.limit(n)`. */
  function Limited(rows: seq<RoadRow>, n: nat): seq<RoadRow> { if n < |rows| then rows[..n] else rows }

  method HydrateRows(id: Uuid, rows: seq<RoadRow>, srid: int) returns (r: Result<seq<FixedRoad>, ReadError>)
    ensures r.Ok? <==> forall row | row in rows :: Usable(row, srid)
    ensures r.Ok? ==> r.value == HydratedAll(id, rows)
  {
    var hydrated: seq<FixedRoad> := [];
    for i := 0 to |rows|
      invariant hydrated == HydratedAll(id, rows[..i])
      invariant forall row | row in rows[..i] :: Usable(row, srid)
    {
      if !Usable(rows[i], srid) {
        return Err(FixedRoadSourceReadError);
      }
      hydrated := hydrated + [Hydrated(id, rows[i])];
    }
    assert rows[..|rows|] == rows;
    r := Ok(hydrated);
  }
}
