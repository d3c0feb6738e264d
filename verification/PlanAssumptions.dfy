/**
 * The plan that the registry builds meets what its two users take for granted: generation runs stages with
 * different names, and checkpoint reuse resolves them in dependency order.
 */
module PlanAssumptions {
  import opened StageGraph
  import Prelude
  import StagePlan
  import Generation
  import CheckpointEncoding
  import CheckpointReuse

  lemma PlanHasDistinctNames(g: Graph, skip: seq<string>, order: seq<string>, plan: seq<StagePlan.PlanEntry>,
                             entries: seq<Generation.PlanEntry>)
    requires Canonical(g, order) && StagePlan.IsPlan(g, skip, order, plan)
    requires |entries| == |plan|
    requires forall i | 0 <= i < |plan| :: entries[i] == Generation.PlanEntry(plan[i].name, plan[i].reason.Some?)
    ensures Generation.DistinctNames(entries)
  {
    hide StagePlan.Blocked;
    CanonicalRespects(g, order);
    RespectsIsDistinct(g, order);
    forall i, j | 0 <= i < j < |entries|
      ensures entries[i].name != entries[j].name
    {
      assert StagePlan.IsEntry(g, skip, order[i], plan[i]) && StagePlan.IsEntry(g, skip, order[j], plan[j]);
    }
  }

  /** The stage that checkpoints are kept for has the name and the dependencies of the registered one. */
  predicate IsStageOf(g: Graph, n: string, stage: CheckpointReuse.Stage, text: string -> CheckpointEncoding.Text) {
    && n in g && stage.name == text(n) && |stage.dependencies| == |g[n]|
    && forall d | 0 <= d < |g[n]| :: stage.dependencies[d] == text(g[n][d])
  }

  /** `text` is the encoding of names as text: different names have different texts. */
  lemma OrderIsDependencyOrder(g: Graph, order: seq<string>, stages: seq<CheckpointReuse.Stage>, text: string -> CheckpointEncoding.Text)
    requires Canonical(g, order) && (forall n | n in g :: Prelude.Distinct(g[n]))
    requires forall a, b :: text(a) == text(b) ==> a == b
    requires |stages| == |order|
    requires forall i | 0 <= i < |order| :: IsStageOf(g, order[i], stages[i], text)
    ensures CheckpointReuse.InDependencyOrder(stages)
  {
    CanonicalRespects(g, order);
    RespectsIsDistinct(g, order);
    forall i | 0 <= i < |stages|
      ensures !CheckpointEncoding.HasDuplicates(stages[i].dependencies)
    {
      assert IsStageOf(g, order[i], stages[i], text);
      var names := g[order[i]];
      forall a, b | 0 <= a < b < |names|
        ensures stages[i].dependencies[a] != stages[i].dependencies[b]
      {
        assert names[a] != names[b];
      }
    }
    forall i, j | 0 <= i < j < |stages|
      ensures stages[i].name != stages[j].name
    {
      assert IsStageOf(g, order[i], stages[i], text) && IsStageOf(g, order[j], stages[j], text);
    }
    forall i, d | 0 <= i < |stages| && 0 <= d < |stages[i].dependencies|
      ensures CheckpointReuse.Earlier(stages, i, stages[i].dependencies[d])
    {
      assert IsStageOf(g, order[i], stages[i], text);
      var name := g[order[i]][d];
      assert Ready(g, order[..i], order[i]);
      assert name in order[..i];
      var j :| 0 <= j < i && order[..i][j] == name;
      assert IsStageOf(g, order[j], stages[j], text);
    }
  }
}
