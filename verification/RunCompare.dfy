/**
 * Side-by-side comparison of evaluated runs: the first run is the baseline, composite scores are ranked
 * only when every run was scored under the same contract, and each metric is ranked in its own direction.
 */
module RunCompare {
  import opened Prelude
  import opened Ordering
  import opened Ranking
  import opened Sorting

  datatype Metric = Metric(id: string, policyVersion: string, configuredWeight: real, normalizedWeight: real,
                           rawValue: Option<real>)

  datatype Score = Score(configId: string, configVersion: string, profileId: string, profileVersion: string,
                         score: real, metrics: seq<Metric>)

  /** How one metric entered a score. */
  datatype Weighting = Weighting(id: string, policyVersion: string, configuredWeight: real, normalizedWeight: real)

  datatype Contract = Contract(configId: string, configVersion: string, profileId: string, profileVersion: string,
                               weightings: seq<Weighting>)

  /** The order of Python tuples: the first component that differs decides. */
  predicate WeightingBefore(a: Weighting, b: Weighting) {
    if a.id != b.id then Less(a.id, b.id)
    else if a.policyVersion != b.policyVersion then Less(a.policyVersion, b.policyVersion)
    else if a.configuredWeight != b.configuredWeight then a.configuredWeight < b.configuredWeight
    else a.normalizedWeight < b.normalizedWeight
  }

  function Weightings(metrics: seq<Metric>): seq<Weighting> {
    seq(|metrics|, i requires 0 <= i < |metrics| =>
      Weighting(metrics[i].id, metrics[i].policyVersion, metrics[i].configuredWeight, metrics[i].normalizedWeight))
  }

  function ScoreContract(s: Score): Contract {
    Contract(s.configId, s.configVersion, s.profileId, s.profileVersion, Sorted(Weightings(s.metrics), WeightingBefore))
  }

  lemma WeightingsAreOrdered()
    ensures StrictOrder(WeightingBefore)
    ensures forall a, b :: a == b || WeightingBefore(a, b) || WeightingBefore(b, a)
  {
    forall a, b
      ensures !WeightingBefore(a, a)
      ensures a == b || WeightingBefore(a, b) || WeightingBefore(b, a)
    {
      LessTotal(a.id, b.id);
      LessTotal(a.policyVersion, b.policyVersion);
    }
    forall a, b, c | WeightingBefore(a, b) && WeightingBefore(b, c)
      ensures WeightingBefore(a, c)
    {
      WeightingBeforeTransitive(a, b, c);
    }
  }

  lemma WeightingBeforeTransitive(a: Weighting, b: Weighting, c: Weighting)
    requires WeightingBefore(a, b) && WeightingBefore(b, c)
    ensures WeightingBefore(a, c)
  {
    if a.id != b.id && b.id != c.id {
      LessTransitive(a.id, b.id, c.id);
      LessIrreflexive(a.id);
    } else if a.id == b.id == c.id && a.policyVersion != b.policyVersion && b.policyVersion != c.policyVersion {
      LessTransitive(a.policyVersion, b.policyVersion, c.policyVersion);
      LessIrreflexive(a.policyVersion);
    }
  }

  /** Two scores were made under the same rules: same configuration and profile, same weightings in any order. */
  ghost predicate SameRules(a: Score, b: Score) {
    && a.configId == b.configId && a.configVersion == b.configVersion
    && a.profileId == b.profileId && a.profileVersion == b.profileVersion
    && multiset(Weightings(a.metrics)) == multiset(Weightings(b.metrics))
  }

  /** The metrics of a score without the values they reported. */
  function Unvalued(metrics: seq<Metric>): seq<Metric> {
    Mapped(metrics, Unvalue)
  }

  function Unvalue(m: Metric): Metric { m.(rawValue := None) }

  function Entered(m: Metric): Weighting { Weighting(m.id, m.policyVersion, m.configuredWeight, m.normalizedWeight) }

  function Weighed(w: Weighting): Metric { Metric(w.id, w.policyVersion, w.configuredWeight, w.normalizedWeight, None) }

  /** Same rules: everything but the scores and the reported values is the same, the metrics in any order. */
  lemma SameRulesExactlyWhen(a: Score, b: Score)
    ensures SameRules(a, b) <==>
      && a.configId == b.configId && a.configVersion == b.configVersion
      && a.profileId == b.profileId && a.profileVersion == b.profileVersion
      && multiset(Unvalued(a.metrics)) == multiset(Unvalued(b.metrics))
  {
    assert forall m :: Weighed(Entered(m)) == Unvalue(m) && Entered(Unvalue(m)) == Entered(m);
    forall s: Score
      ensures Weightings(s.metrics) == Mapped(Unvalued(s.metrics), Entered) && Unvalued(s.metrics) == Mapped(Weightings(s.metrics), Weighed)
    {
    }
    if multiset(Unvalued(a.metrics)) == multiset(Unvalued(b.metrics)) {
      MappedPermutes(Unvalued(a.metrics), Unvalued(b.metrics), Entered);
    }
    if multiset(Weightings(a.metrics)) == multiset(Weightings(b.metrics)) {
      MappedPermutes(Weightings(a.metrics), Weightings(b.metrics), Weighed);
    }
  }

  /** The contract that is compared says exactly whether two scores were made under the same rules. */
  lemma ContractsAgreeExactlyForSameRules(a: Score, b: Score)
    ensures ScoreContract(a) == ScoreContract(b) <==> SameRules(a, b)
  {
    WeightingsAreOrdered();
    SortedIsCanonical(Weightings(a.metrics), Weightings(b.metrics), WeightingBefore);
  }

  /** One value of a compared row, with its distance to the baseline. */
  datatype Compared = Compared(value: Option<real>, delta: Option<real>, rank: Option<nat>)

  /** What a row of compared values promises about the values it was made from; the baseline is the first. */
  predicate IsRow(row: seq<Compared>, values: seq<Option<real>>, d: Direction) {
    |row| == |values| && forall i | 0 <= i < |row| ::
      && row[i].value == values[i]
      && row[i].rank == RankOf(values, d, i)
      && row[i].delta == if values[i].Some? && values[0].Some? then Some(values[i].value - values[0].value) else None
  }

  /**
   * Ranks and deltas of a row never contradict each other: a run ranks before the baseline exactly when its
   * delta points in the metric's direction, and with it exactly when the delta is zero.
   */
  lemma RanksAgreeWithDeltas(row: seq<Compared>, values: seq<Option<real>>, d: Direction, i: nat)
    requires d.Rankable() && IsRow(row, values, d) && i < |row|
    ensures row[i].delta.Some? <==> row[i].rank.Some? && row[0].rank.Some?
    ensures row[i].delta.Some? ==>
      && (row[i].rank.value < row[0].rank.value <==> d.Better(row[i].delta.value, 0.0))
      && (row[i].rank == row[0].rank <==> row[i].delta.value == 0.0)
  {
    RanksOrderValues(values, d, i, 0);
  }

  function ScoreValues(scores: seq<Score>): seq<Option<real>> {
    seq(|scores|, i requires 0 <= i < |scores| => Some(scores[i].score))
  }

  method CompareRow(values: seq<Option<real>>, d: Direction) returns (row: seq<Compared>)
    ensures IsRow(row, values, d)
  {
    var ranks := Ranks(values, d);
    row := [];
    for i := 0 to |values|
      invariant |row| == i
      invariant forall k | 0 <= k < i ::
        && row[k].value == values[k] && row[k].rank == ranks[k]
        && row[k].delta == if values[k].Some? && values[0].Some? then Some(values[k].value - values[0].value) else None
    {
      var delta := if values[i].Some? && values[0].Some? then Some(values[i].value - values[0].value) else None;
      row := row + [Compared(values[i], delta, ranks[i])];
    }
  }

  /** Composite scores get ranks and deltas exactly when all runs were scored under the same rules. */
  method CompareScores(scores: seq<Score>) returns (comparable: bool, row: seq<Compared>)
    requires |scores| > 0
    ensures comparable <==> forall i, j | 0 <= i < j < |scores| :: SameRules(scores[i], scores[j])
    ensures comparable ==> IsRow(row, ScoreValues(scores), HigherIsBetter)
    ensures |row| == |scores| && forall i | 0 <= i < |scores| :: row[i].value == Some(scores[i].score)
    ensures !comparable ==> row == seq(|scores|, i requires 0 <= i < |scores| => Compared(Some(scores[i].score), None, None))
  {
    var k := 1;
    while k < |scores| && ScoreContract(scores[k]) == ScoreContract(scores[0])
      invariant 1 <= k <= |scores|
      invariant forall i | 0 <= i < k :: ScoreContract(scores[i]) == ScoreContract(scores[0])
    {
      k := k + 1;
    }
    comparable := k == |scores|;
    forall i, j | 0 <= i < j < |scores|
      ensures SameRules(scores[i], scores[j]) <==> ScoreContract(scores[i]) == ScoreContract(scores[j])
    {
      ContractsAgreeExactlyForSameRules(scores[i], scores[j]);
    }
    if comparable {
      row := CompareRow(ScoreValues(scores), HigherIsBetter);
    } else {
      assert !SameRules(scores[0], scores[k]);
      row := seq(|scores|, i requires 0 <= i < |scores| => Compared(Some(scores[i].score), None, None));
    }
  }

  // ----- Metrics -----

  datatype Definition = Definition(metricId: string, direction: Direction)

  predicate Reports(s: Score, metricId: string) {
    exists m :: m in s.metrics && m.id == metricId
  }

  /** The raw value a run reports for a metric; the last entry counts. */
  function RawValue(metrics: seq<Metric>, metricId: string): Option<real> {
    if metrics == [] then None
    else if metrics[|metrics| - 1].id == metricId then metrics[|metrics| - 1].rawValue
    else RawValue(metrics[..|metrics| - 1], metricId)
  }

  /** A run that has no entry for a metric reports no value for it. */
  lemma {:induction false} NothingIsReported(metrics: seq<Metric>, metricId: string)
    requires forall k | 0 <= k < |metrics| :: metrics[k].id != metricId
    ensures RawValue(metrics, metricId) == None
  {
    if metrics != [] {
      NothingIsReported(metrics[..|metrics| - 1], metricId);
    }
  }

  /** What a run with entries for the metric reports is the value of the last of them. */
  lemma {:induction false} LastEntryIsReported(metrics: seq<Metric>, metricId: string, k: nat)
    requires k < |metrics| && metrics[k].id == metricId && forall j | k < j < |metrics| :: metrics[j].id != metricId
    ensures RawValue(metrics, metricId) == metrics[k].rawValue
  {
    if k < |metrics| - 1 {
      LastEntryIsReported(metrics[..|metrics| - 1], metricId, k);
    }
  }

  function RawValues(scores: seq<Score>, metricId: string): seq<Option<real>> {
    seq(|scores|, i requires 0 <= i < |scores| => RawValue(scores[i].metrics, metricId))
  }

  datatype MetricRow = MetricRow(metricId: string, row: seq<Compared>)

  /** The definitions that some run reports, in the order of the registry. */
  ghost function Reported(definitions: seq<Definition>, scores: seq<Score>): seq<Definition> {
    if definitions == [] then []
    else
      var last := definitions[|definitions| - 1];
      Reported(definitions[..|definitions| - 1], scores)
      + (if exists s :: s in scores && Reports(s, last.metricId) then [last] else [])
  }

  /** What is reported: the definitions of the registry that some run has an entry for. */
  lemma {:induction false} ReportedExactly(definitions: seq<Definition>, scores: seq<Score>)
    ensures forall d :: d in Reported(definitions, scores) <==> d in definitions && exists s, m | s in scores && m in s.metrics :: m.id == d.metricId
  {
    if definitions != [] {
      var init, last := definitions[..|definitions| - 1], definitions[|definitions| - 1];
      ReportedExactly(init, scores);
      assert definitions == init + [last];
      if s, m :| s in scores && m in s.metrics && m.id == last.metricId {
        assert Reports(s, last.metricId);
      }
    }
  }

  /** And they come in the order of the registry. */
  lemma {:induction false} ReportedInOrder(definitions: seq<Definition>, scores: seq<Score>, i: nat, j: nat) returns (a: nat, b: nat)
    requires i < j < |Reported(definitions, scores)|
    ensures a < b < |definitions| && definitions[a] == Reported(definitions, scores)[i] && definitions[b] == Reported(definitions, scores)[j]
  {
    var init := definitions[..|definitions| - 1];
    var before := Reported(init, scores);
    if j < |before| {
      a, b := ReportedInOrder(init, scores, i, j);
    } else {
      ReportedExactly(init, scores);
      assert before[i] in before;
      a :| 0 <= a < |init| && init[a] == before[i];
      b := |init|;
    }
  }

  /** One row per metric that some run reports, in registry order, each ranked in its own direction. */
  method CompareMetrics(definitions: seq<Definition>, scores: seq<Score>) returns (rows: seq<MetricRow>)
    ensures var reported := Reported(definitions, scores);
      |rows| == |reported| && forall k | 0 <= k < |rows| ::
        && rows[k].metricId == reported[k].metricId
        && IsRow(rows[k].row, RawValues(scores, reported[k].metricId), reported[k].direction)
    ensures forall k | 0 <= k < |rows| :: ShowsValues(rows[k], scores)
  {
    hide IsRow, RawValues;
    rows := [];
    for n := 0 to |definitions|
      invariant var reported := Reported(definitions[..n], scores);
        |rows| == |reported| && forall k | 0 <= k < |rows| ::
          && rows[k].metricId == reported[k].metricId
          && IsRow(rows[k].row, RawValues(scores, reported[k].metricId), reported[k].direction)
    {
      var definition := definitions[n];
      assert definitions[..n + 1][..n] == definitions[..n];
      if exists s :: s in scores && Reports(s, definition.metricId) {
        var row := CompareRow(RawValues(scores, definition.metricId), definition.direction);
        rows := rows + [MetricRow(definition.metricId, row)];
      }
    }
    assert definitions[..|definitions|] == definitions;
    forall k | 0 <= k < |rows|
      ensures ShowsValues(rows[k], scores)
    {
      RowShowsValues(rows[k], scores, Reported(definitions, scores)[k].direction);
    }
  }

  /** A row shows, run by run, what the runs report. */
  predicate ShowsValues(row: MetricRow, scores: seq<Score>) {
    |row.row| == |scores| && forall i | 0 <= i < |scores| :: row.row[i].value == RawValue(scores[i].metrics, row.metricId)
  }

  lemma RowShowsValues(row: MetricRow, scores: seq<Score>, d: Direction)
    requires IsRow(row.row, RawValues(scores, row.metricId), d)
    ensures ShowsValues(row, scores)
  {
  }
}
