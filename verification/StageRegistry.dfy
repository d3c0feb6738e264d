/**
 * The registry of stages: a depth-first search that refuses dependency cycles, a priority-first topological
 * sort, and the plan that skips the requested stages together with all that depends on them.
 */
module StageRegistry {
  import opened Prelude
  import opened StageGraph

  datatype Stage = Stage(name: string, dependencies: seq<string>)

  datatype RegistryError =
    | EmptyRegistry | InvalidMetadata | DuplicateName | MissingDependency | DependencyCycle(path: seq<string>) | UnresolvedCycle
    | InvalidSkip

  function GraphOf(stages: seq<Stage>): Graph {
    if stages == [] then map[]
    else
      var last := stages[|stages| - 1];
      GraphOf(stages[..|stages| - 1])[last.name := last.dependencies]
  }

  function Names(stages: seq<Stage>): seq<string> {
    seq(|stages|, i requires 0 <= i < |stages| => stages[i].name)
  }

  lemma {:induction false} GraphHolds(stages: seq<Stage>)
    requires Distinct(Names(stages))
    ensures GraphOf(stages).Keys == set i | 0 <= i < |stages| :: stages[i].name
    ensures forall i | 0 <= i < |stages| :: stages[i].name in GraphOf(stages) && GraphOf(stages)[stages[i].name] == stages[i].dependencies
  {
    if stages != [] {
      var init, last := stages[..|stages| - 1], stages[|stages| - 1];
      var names := Names(stages);
      assert forall i | 0 <= i < |init| :: Names(init)[i] == names[i];
      GraphHolds(init);
      forall i | 0 <= i < |init|
        ensures init[i] == stages[i] && stages[i].name != last.name
      {
        assert names[i] != names[|init|];
      }
    }
  }

  // ----- The search for cycles -----

  /** 0: not seen; 1: being visited, on the stack; 2: finished. */
  function Marker(state: map<string, int>, name: string): int { if name in state then state[name] else 0 }

  ghost predicate Tracks(state: map<string, int>, stack: seq<string>, finished: seq<string>) {
    forall n :: && (Marker(state, n) == 1 <==> n in stack)
                && (Marker(state, n) == 2 <==> n in finished)
                && (Marker(state, n) == 0 || Marker(state, n) == 1 || Marker(state, n) == 2)
  }

  lemma TracksSays(state: map<string, int>, stack: seq<string>, finished: seq<string>, n: string)
    requires Tracks(state, stack, finished)
    ensures Marker(state, n) == (if n in stack then 1 else if n in finished then 2 else 0)
    ensures !(n in stack && n in finished)
  {
  }

  lemma PushTracks(state: map<string, int>, stack: seq<string>, finished: seq<string>, n: string)
    requires Tracks(state, stack, finished) && Marker(state, n) == 0
    ensures Tracks(state[n := 1], stack + [n], finished)
  {
    forall m
      ensures Marker(state[n := 1], m) == if m == n then 1 else Marker(state, m)
    {
    }
  }

  lemma FinishTracks(state: map<string, int>, stack: seq<string>, finished: seq<string>, n: string)
    requires Tracks(state, stack + [n], finished) && n !in stack
    ensures Tracks(state[n := 2], stack, finished + [n]) && n !in finished
  {
    TracksSays(state, stack + [n], finished, n);
    forall m
      ensures Marker(state[n := 2], m) == if m in stack then 1 else if m in finished + [n] then 2 else 0
    {
      TracksSays(state, stack + [n], finished, m);
    }
    forall m
      ensures !(m in stack && m in finished + [n])
    {
      TracksSays(state, stack + [n], finished, m);
    }
  }

  class CycleSearch {
    const graph: Graph
    var state: map<string, int>
    var stack: seq<string>
    ghost var finished: seq<string>

    constructor (graph: Graph)
      requires Closed(graph)
      ensures this.graph == graph && Valid() && stack == [] && finished == []
    {
      this.graph := graph;
      state, stack, finished := map[], [], [];
    }

    /** The stack is a path; what is finished comes after all its dependencies. */
    ghost predicate Valid()
      reads this
    {
      && Closed(graph)
      && Tracks(state, stack, finished)
      && (stack == [] || IsPath(graph, stack))
      && Respects(graph, finished)
    }

    method IndexOf(name: string) returns (start: nat)
      requires name in stack
      ensures start < |stack| && stack[start] == name
    {
      start := 0;
      while stack[start] != name
        invariant start < |stack| && name !in stack[..start]
        decreases |stack| - start
      {
        start := start + 1;
      }
    }

    /** `visit`: a cycle that really is one, or the stage is finished and the search is where it was. */
    method Visit(name: string) returns (cycle: Option<seq<string>>)
      requires Valid() && name in graph
      requires stack != [] ==> name in graph[stack[|stack| - 1]]
      modifies this
      ensures cycle.Some? ==> IsCycle(graph, cycle.value)
      ensures cycle.None? ==> Valid() && stack == old(stack) && name in finished && old(finished) <= finished
      decreases graph.Keys - set n | n in stack
    {
      hide IsPath, Respects, IsCycle, Tracks;
      TracksSays(state, stack, finished, name);
      if Marker(state, name) == 2 {
        return None;
      }
      if Marker(state, name) == 1 {
        var start := IndexOf(name);
        CloseCycle(graph, stack, start, name);
        return Some(stack[start..] + [name]);
      }
      ghost var outer := stack;
      PushTracks(state, stack, finished, name);
      PathAppends(graph, stack, name);
      state := state[name := 1];
      stack := stack + [name];
      var dependencies := graph[name];
      assert (set n | n in stack) == (set n | n in outer) + {name};
      for k := 0 to |dependencies|
        invariant Valid() && stack == outer + [name] && old(finished) <= finished
        invariant forall d | d in dependencies[..k] :: d in finished
      {
        assert dependencies[k] in dependencies;
        ghost var before := finished;
        var found := Visit(dependencies[k]);
        if found.Some? {
          return found;
        }
        assert forall d | d in before :: d in finished;
      }
      assert dependencies[..|dependencies|] == dependencies;
      FinishTracks(state, outer, finished, name);
      RespectsAppends(graph, finished, name);
      stack := stack[..|stack| - 1];
      assert stack == outer;
      state := state[name := 2];
      finished := finished + [name];
      cycle := None;
    }
  }

  lemma PathAppends(g: Graph, p: seq<string>, n: string)
    requires p == [] || IsPath(g, p)
    requires n in g && (p != [] ==> n in g[p[|p| - 1]])
    ensures IsPath(g, p + [n])
  {
  }

  lemma CloseCycle(g: Graph, p: seq<string>, start: nat, n: string)
    requires IsPath(g, p) && start < |p| && p[start] == n && n in g[p[|p| - 1]]
    ensures IsCycle(g, p[start..] + [n])
  {
    var tail := p[start..];
    forall i | 0 <= i < |tail| - 1
      ensures tail[i + 1] in g[tail[i]]
    {
      assert tail[i] == p[start + i] && tail[i + 1] == p[start + i + 1];
    }
    PathAppends(g, tail, n);
  }

  /** The search refuses exactly the graphs that cannot be ordered, and shows a cycle of those. */
  method ValidateAcyclic(stages: seq<Stage>, graph: Graph) returns (cycle: Option<seq<string>>)
    requires Distinct(Names(stages)) && graph == GraphOf(stages) && Closed(graph)
    ensures cycle.Some? ==> IsCycle(graph, cycle.value)
    ensures cycle.None? <==> Orderable(graph)
  {
    GraphHolds(stages);
    var search := new CycleSearch(graph);
    for i := 0 to |stages|
      invariant search.graph == graph && search.Valid() && search.stack == []
      invariant forall k | 0 <= k < i :: stages[k].name in search.finished
    {
      var found := search.Visit(stages[i].name);
      if found.Some? {
        CyclicIsNotOrderable(graph, found.value);
        return found;
      }
    }
    assert IsOrder(graph, search.finished);
    cycle := None;
  }

  // ----- The registry -----

  predicate ValidDependencies(stage: Stage) {
    Distinct(stage.dependencies) && stage.name !in stage.dependencies
  }

  /** The metadata conditions that every registry is checked for. */
  predicate WellFormed(stages: seq<Stage>) {
    && stages != [] && (forall s | s in stages :: ValidDependencies(s))
    && Distinct(Names(stages)) && Closed(GraphOf(stages))
  }

  /** The stages before `i` have sound metadata and different names. */
  predicate SoundUpTo(stages: seq<Stage>, i: nat)
    requires i <= |stages|
  {
    && (forall k | 0 <= k < i :: Distinct(stages[k].dependencies) && stages[k].name !in stages[k].dependencies)
    && (forall k, m | 0 <= k < m < i :: stages[k].name != stages[m].name)
  }

  /** The first stage with unsound metadata, or with the name of an earlier one, is what the registry is refused for. */
  ghost predicate RefusedFor(stages: seq<Stage>, error: RegistryError) {
    match error
    case EmptyRegistry => stages == []
    case InvalidMetadata =>
      exists i: nat :: i < |stages| && SoundUpTo(stages, i) && (!Distinct(stages[i].dependencies) || stages[i].name in stages[i].dependencies)
    case DuplicateName =>
      exists i: nat :: i < |stages| && SoundUpTo(stages, i) && Distinct(stages[i].dependencies) && stages[i].name !in stages[i].dependencies
                       && exists k :: 0 <= k < i && stages[k].name == stages[i].name
    case MissingDependency =>
      && stages != [] && SoundUpTo(stages, |stages|)
      && exists s, d :: s in stages && d in s.dependencies && forall t | t in stages :: t.name != d
    case DependencyCycle(path) => stages != [] && SoundUpTo(stages, |stages|) && Closed(GraphOf(stages)) && IsCycle(GraphOf(stages), path)
    case _ => false
  }

  lemma SoundNames(stages: seq<Stage>, i: nat)
    requires i <= |stages| && (forall s | s in stages[..i] :: ValidDependencies(s)) && Distinct(Names(stages[..i]))
    ensures SoundUpTo(stages, i)
  {
    forall k | 0 <= k < i
      ensures ValidDependencies(stages[k])
    {
      assert stages[k] in stages[..i];
    }
    forall k, m | 0 <= k < m < i
      ensures stages[k].name != stages[m].name
    {
      assert Names(stages[..i])[k] == stages[k].name && Names(stages[..i])[m] == stages[m].name;
    }
  }

  lemma OpenGraph(stages: seq<Stage>)
    requires Distinct(Names(stages)) && !Closed(GraphOf(stages))
    ensures exists s, d :: s in stages && d in s.dependencies && forall t | t in stages :: t.name != d
  {
    GraphHolds(stages);
    hide GraphOf;
    var g := GraphOf(stages);
    var n, d :| n in g && d in g[n] && d !in g;
    var i :| 0 <= i < |stages| && stages[i].name == n;
    assert stages[i] in stages && d in stages[i].dependencies;
  }

  /** A registry is accepted exactly when its metadata is well formed and its stages can be ordered. */
  method ValidateRegistry(stages: seq<Stage>) returns (error: Option<RegistryError>)
    ensures error.None? <==> WellFormed(stages) && Orderable(GraphOf(stages))
    ensures error.Some? ==> RefusedFor(stages, error.value)
  {
    if stages == [] {
      return Some(EmptyRegistry);
    }
    for i := 0 to |stages|
      invariant forall s | s in stages[..i] :: ValidDependencies(s)
      invariant Distinct(Names(stages[..i]))
    {
      assert stages[i] in stages;
      SoundNames(stages, i);
      if !ValidDependencies(stages[i]) {
        return Some(InvalidMetadata);
      }
      assert forall k | 0 <= k < i :: Names(stages[..i])[k] == Names(stages)[k] == stages[k].name;
      if exists k :: 0 <= k < i && stages[k].name == stages[i].name {
        var k :| 0 <= k < i && stages[k].name == stages[i].name;
        assert Names(stages)[k] == Names(stages)[i];
        return Some(DuplicateName);
      }
    }
    assert stages[..|stages|] == stages;
    GraphHolds(stages);
    var graph := GraphOf(stages);
    SoundNames(stages, |stages|);
    if !Closed(graph) {
      OpenGraph(stages);
      return Some(MissingDependency);
    }
    var cycle := ValidateAcyclic(stages, graph);
    if cycle.Some? {
      return Some(DependencyCycle(cycle.value));
    }
    error := None;
  }
}
