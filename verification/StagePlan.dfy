/**
 * The plan of a validated registry: its stages in the canonical dependency order, each to be executed, or
 * skipped because that was requested or because something it depends on is skipped.
 */
module StagePlan {
  import opened Prelude
  import opened Ordering
  import opened Sorting
  import opened StageGraph
  import opened StageRegistry

  // ----- The topological sort -----

  function Undone(done: seq<string>): string -> bool { (d: string) => d !in done }

  /** How many dependencies are still to be done. */
  function Pending(g: Graph, done: seq<string>, n: string): nat
    requires n in g
  {
    Count(g[n], Undone(done))
  }

  lemma {:induction false} DoneCounts(dependencies: seq<string>, done: seq<string>, n: string)
    requires Distinct(dependencies) && n !in done
    ensures Count(dependencies, Undone(done + [n])) == Count(dependencies, Undone(done)) - (if n in dependencies then 1 else 0)
  {
    if dependencies != [] {
      var rest := dependencies[1..];
      assert forall i, j | 0 <= i < j < |rest| :: rest[i] == dependencies[i + 1] && rest[j] == dependencies[j + 1];
      DoneCounts(rest, done, n);
      assert dependencies == [dependencies[0]] + rest;
      assert dependencies[0] !in rest;
    }
  }

  lemma PendingZero(g: Graph, done: seq<string>, n: string)
    requires n in g
    ensures Pending(g, done, n) == 0 <==> forall d | d in g[n] :: d in done
    ensures Pending(g, [], n) == |g[n]|
  {
    CountBounds(g[n], _ => false, Undone(done));
    CountBounds(g[n], Undone([]), Undone([]));
    if forall d | d in g[n] :: d in done {
      CountBounds(g[n], Undone(done), Undone(done));
    } else {
      CountBounds(g[n], Undone(done), Undone(done));
      CountPositive(g[n], Undone(done));
    }
  }

  lemma {:induction false} CountPositive(s: seq<string>, p: string -> bool)
    requires exists x :: x in s && p(x)
    ensures Count(s, p) > 0
  {
    if !p(s[0]) {
      var x :| x in s && p(x);
      assert x in s[1..];
      CountPositive(s[1..], p);
    }
  }

  /** The degrees of the stages that are not done count what they still wait for. */
  ghost predicate Counts(g: Graph, done: seq<string>, indegree: map<string, int>) {
    indegree.Keys == g.Keys && forall n | n in g && n !in done :: indegree[n] == Pending(g, done, n)
  }

  /** Exactly the stages that could come next. */
  ghost predicate IsFrontier(g: Graph, done: seq<string>, ready: set<string>) {
    forall n :: n in ready <==> Ready(g, done, n)
  }

  predicate IsLeast(names: set<string>, n: string) { n in names && forall m | m in names :: m == n || Less(n, m) }

  lemma LeastExists(names: set<string>)
    requires names != {}
    ensures exists n :: IsLeast(names, n)
  {
    hide Less;
    var n :| n in names;
    var rest := names - {n};
    if rest == {} {
      assert forall m | m in names :: m == n || m in rest;
      assert IsLeast(names, n);
    } else {
      LeastExists(rest);
      var least :| IsLeast(rest, least);
      LeastOfTwo(names, n, least);
    }
  }

  lemma LeastOfTwo(names: set<string>, n: string, least: string)
    requires n in names && IsLeast(names - {n}, least)
    ensures IsLeast(names, n) || IsLeast(names, least)
  {
    hide Less;
    LessTotal(n, least);
    if Less(n, least) {
      forall m | m in names
        ensures m == n || Less(n, m)
      {
        if m != n && m != least {
          LessTransitive(n, least, m);
        }
      }
    }
  }

  /** Which stages depend directly on each stage. */
  ghost predicate IsDependents(g: Graph, dependents: map<string, seq<string>>) {
    && dependents.Keys == g.Keys
    && (forall d | d in g :: Distinct(dependents[d]))
    && (forall d, n | d in g :: n in dependents[d] <==> n in g && d in g[n])
  }

  /** What a well-formed registry says about its graph. */
  lemma GraphIsSound(stages: seq<Stage>)
    requires WellFormed(stages)
    ensures var g := GraphOf(stages);
      && Closed(g) && (forall n | n in g :: Distinct(g[n]))
      && (forall i | 0 <= i < |stages| :: stages[i].name in g && g[stages[i].name] == stages[i].dependencies)
      && (forall n :: n in g <==> n in Names(stages))
  {
    var g := GraphOf(stages);
    var names := Names(stages);
    GraphHolds(stages);
    forall n | n in g
      ensures n in names && Distinct(g[n])
    {
      var i :| 0 <= i < |stages| && stages[i].name == n;
      assert names[i] == n && stages[i] in stages;
    }
    forall n | n in names
      ensures n in g
    {
      var i :| 0 <= i < |names| && names[i] == n;
    }
  }

  /** The stages of `names` that depend directly on `d`, in their order. */
  ghost function Depending(g: Graph, names: seq<string>, d: string): seq<string> {
    if names == [] then []
    else
      var last := names[|names| - 1];
      Depending(g, names[..|names| - 1], d) + (if last in g && d in g[last] then [last] else [])
  }

  lemma {:induction false} DependingHolds(g: Graph, names: seq<string>, d: string)
    requires Distinct(names)
    ensures forall n :: n in Depending(g, names, d) <==> n in names && n in g && d in g[n]
    ensures Distinct(Depending(g, names, d))
  {
    if names != [] {
      var init, last := names[..|names| - 1], names[|names| - 1];
      DependingHolds(g, init, d);
      assert names == init + [last] && last !in init;
    }
  }

  method DependentsOf(stages: seq<Stage>, g: Graph) returns (dependents: map<string, seq<string>>)
    requires WellFormed(stages) && g == GraphOf(stages)
    ensures IsDependents(g, dependents)
  {
    hide GraphOf, WellFormed, Closed, Distinct, IsDependents, Depending;
    GraphIsSound(stages);
    var names := Names(stages);
    dependents := map n | n in g.Keys :: [];
    NothingDepends(g, names);
    for i := 0 to |stages|
      invariant dependents.Keys == g.Keys
      invariant forall d | d in g :: dependents[d] == Depending(g, names[..i], d)
    {
      DependingGrows(g, names, i);
      NamesAreRegistered(stages, stages[i].name, g);
      dependents := AddDependent(g, stages[i].name, dependents);
    }
    assert names[..|stages|] == names;
    CollectedAreDependents(g, stages, dependents);
  }

  lemma NothingDepends(g: Graph, names: seq<string>)
    ensures forall d :: Depending(g, names[..0], d) == []
  {
  }

  lemma DependingGrows(g: Graph, names: seq<string>, i: nat)
    requires i < |names|
    ensures forall d ::
      Depending(g, names[..i + 1], d) == Depending(g, names[..i], d) + (if names[i] in g && d in g[names[i]] then [names[i]] else [])
  {
    assert names[..i + 1][..i] == names[..i] && names[..i + 1][i] == names[i];
  }

  lemma NamesAreRegistered(stages: seq<Stage>, n: string, g: Graph)
    requires WellFormed(stages) && g == GraphOf(stages) && n in g
    ensures Distinct(g[n]) && forall d | d in g[n] :: d in g
  {
    GraphIsSound(stages);
  }

  lemma CollectedAreDependents(g: Graph, stages: seq<Stage>, dependents: map<string, seq<string>>)
    requires WellFormed(stages) && g == GraphOf(stages) && dependents.Keys == g.Keys
    requires forall d | d in g :: dependents[d] == Depending(g, Names(stages), d)
    ensures IsDependents(g, dependents)
  {
    hide GraphOf;
    GraphIsSound(stages);
    forall d | d in g
      ensures Distinct(dependents[d]) && forall n :: n in dependents[d] <==> n in g && d in g[n]
    {
      DependingHolds(g, Names(stages), d);
    }
  }

  method AddDependent(g: Graph, name: string, dependents: map<string, seq<string>>) returns (r: map<string, seq<string>>)
    requires name in g && Distinct(g[name]) && (forall d | d in g[name] :: d in g) && dependents.Keys == g.Keys
    ensures r.Keys == g.Keys
    ensures forall d | d in g :: r[d] == dependents[d] + (if d in g[name] then [name] else [])
  {
    var dependencies := g[name];
    r := dependents;
    for k := 0 to |dependencies|
      invariant r.Keys == g.Keys
      invariant forall d | d in g :: r[d] == dependents[d] + (if d in dependencies[..k] then [name] else [])
    {
      var dependency := dependencies[k];
      assert dependency in dependencies && dependency !in dependencies[..k];
      r := r[dependency := r[dependency] + [name]];
    }
    assert dependencies[..|dependencies|] == dependencies;
  }

  /** What is left to do once `name` is done: its dependents wait for one stage less. */
  method Release(g: Graph, ghost done: seq<string>, name: string, dependents: seq<string>, indegree: map<string, int>, ready: set<string>)
    returns (degrees: map<string, int>, frontier: set<string>)
    requires Closed(g) && (forall n | n in g :: Distinct(g[n]))
    requires Respects(g, done) && Ready(g, done, name)
    requires Counts(g, done, indegree) && forall n :: n in ready <==> Ready(g, done, n) && n != name
    requires Distinct(dependents) && forall n :: n in dependents <==> n in g && name in g[n]
    ensures Counts(g, done + [name], degrees) && IsFrontier(g, done + [name], frontier)
  {
    degrees, frontier := indegree, ready;
    for k := 0 to |dependents|
      invariant degrees.Keys == g.Keys
      invariant forall n | n in g :: degrees[n] == indegree[n] - (if n in dependents[..k] then 1 else 0)
      invariant forall n :: n in frontier <==> n in ready || (n in dependents[..k] && degrees[n] == 0)
    {
      var dependent := dependents[k];
      assert dependent in dependents && dependent !in dependents[..k];
      degrees := degrees[dependent := degrees[dependent] - 1];
      if degrees[dependent] == 0 {
        frontier := frontier + {dependent};
      }
    }
    assert dependents[..|dependents|] == dependents;
    ReleaseIsRight(g, done, name, dependents, indegree, ready, degrees, frontier);
  }

  lemma DependentIsLater(g: Graph, done: seq<string>, name: string, n: string)
    requires Respects(g, done) && Ready(g, done, name) && n in g && name in g[n]
    ensures n !in done && n != name
  {
    forall i | 0 <= i < |done|
      ensures done[i] != n
    {
      assert Ready(g, done[..i], done[i]);
      assert name !in done[..i];
    }
  }

  lemma ReleaseIsRight(g: Graph, done: seq<string>, name: string, dependents: seq<string>, indegree: map<string, int>, ready: set<string>,
                       degrees: map<string, int>, frontier: set<string>)
    requires forall n | n in g :: Distinct(g[n])
    requires Respects(g, done) && Ready(g, done, name)
    requires Counts(g, done, indegree) && forall n :: n in ready <==> Ready(g, done, n) && n != name
    requires forall n :: n in dependents <==> n in g && name in g[n]
    requires degrees.Keys == g.Keys
    requires forall n | n in g :: degrees[n] == indegree[n] - (if n in dependents then 1 else 0)
    requires forall n :: n in frontier <==> n in ready || (n in dependents && degrees[n] == 0)
    ensures Counts(g, done + [name], degrees) && IsFrontier(g, done + [name], frontier)
  {
    var more := done + [name];
    forall n | n in g && n !in more
      ensures degrees[n] == Pending(g, more, n)
    {
      DoneCounts(g[n], done, name);
    }
    forall n
      ensures n in frontier <==> Ready(g, more, n)
    {
      if n in g {
        PendingZero(g, more, n);
        PendingZero(g, done, n);
        if n in dependents {
          DependentIsLater(g, done, name, n);
        }
      }
    }
  }

  lemma OrderStaysInside(g: Graph, order: seq<string>)
    requires Respects(g, order)
    ensures (set x | x in order) <= g.Keys
  {
    forall x | x in order
      ensures x in g
    {
      var i :| 0 <= i < |order| && order[i] == x;
      assert Ready(g, order[..i], order[i]);
    }
  }

  lemma GraphSize(stages: seq<Stage>)
    requires WellFormed(stages)
    ensures |GraphOf(stages).Keys| == |stages|
  {
    GraphIsSound(stages);
    DistinctCardinality(Names(stages));
    assert (set x | x in Names(stages)) == GraphOf(stages).Keys;
  }

  /** As many different registered names as there are stages are all of them. */
  lemma AllDoneBySize(stages: seq<Stage>, order: seq<string>)
    requires WellFormed(stages) && Respects(GraphOf(stages), order)
    ensures |order| == |stages| <==> Covers(GraphOf(stages), order)
  {
    hide GraphOf, WellFormed, Respects, Distinct;
    var g := GraphOf(stages);
    GraphSize(stages);
    OrderStaysInside(g, order);
    RespectsIsDistinct(g, order);
    DistinctCardinality(order);
    SubsetSizes((set x | x in order), g.Keys);
  }

  lemma SubsetSizes(a: set<string>, b: set<string>)
    requires a <= b
    ensures |a| == |b| <==> a == b
  {
    assert |b| == |a| + |b - a| by {
      assert b == a + (b - a);
    }
    assert b - a == {} ==> b == a;
  }

  lemma FrontierHasNext(g: Graph, done: seq<string>, ready: set<string>, name: string)
    requires IsFrontier(g, done, ready) && IsLeast(ready, name)
    ensures IsNext(g, done, name) && Ready(g, done, name)
    ensures forall n :: n in ready - {name} <==> Ready(g, done, n) && n != name
  {
  }

  /** One round of the sort: the name that was picked is done. */
  method FinishStage(g: Graph, ghost done: seq<string>, name: string, dependents: map<string, seq<string>>, indegree: map<string, int>,
                     ready: set<string>)
    returns (degrees: map<string, int>, frontier: set<string>)
    requires Closed(g) && (forall n | n in g :: Distinct(g[n])) && IsDependents(g, dependents)
    requires Canonical(g, done) && Counts(g, done, indegree) && IsFrontier(g, done, ready)
    requires IsLeast(ready, name)
    ensures Canonical(g, done + [name]) && Counts(g, done + [name], degrees) && IsFrontier(g, done + [name], frontier)
    ensures name in g && name !in done
  {
    hide Closed, Canonical, Counts, IsFrontier, Respects, Distinct;
    FrontierHasNext(g, done, ready, name);
    CanonicalRespects(g, done);
    CanonicalAppends(g, done, name);
    SortedPermutes(dependents[name], Less);
    SortedStaysDistinct(dependents[name]);
    degrees, frontier := Release(g, done, name, Sorted(dependents[name], Less), indegree, ready - {name});
  }

  /**
   * The topological sort gives the canonical order, whatever order the stages were registered in; on a
   * registry that was accepted it never fails.
   */
  method TopologicalStages(stages: seq<Stage>) returns (order: Result<seq<string>, RegistryError>)
    requires WellFormed(stages)
    ensures order.Ok? <==> Orderable(GraphOf(stages))
    ensures order.Ok? ==> Canonical(GraphOf(stages), order.value) && Covers(GraphOf(stages), order.value)
  {
    hide GraphOf, WellFormed, Closed, Canonical, Counts, IsFrontier, Respects, Distinct, IsDependents, Covers;
    var g := GraphOf(stages);
    GraphIsSound(stages);
    var dependents := DependentsOf(stages, g);
    var indegree := map n | n in g.Keys :: |g[n]|;
    var ready := set n | n in g.Keys && indegree[n] == 0;
    var ordered: seq<string> := [];
    StartsRight(g, indegree, ready);
    while ready != {}
      invariant Canonical(g, ordered) && Counts(g, ordered, indegree) && IsFrontier(g, ordered, ready)
      decreases g.Keys - set n | n in ordered
    {
      LeastExists(ready);
      var name :| IsLeast(ready, name);
      indegree, ready := FinishStage(g, ordered, name, dependents, indegree, ready);
      assert (set n | n in ordered + [name]) == (set n | n in ordered) + {name};
      ordered := ordered + [name];
    }
    CanonicalRespects(g, ordered);
    AllDoneBySize(stages, ordered);
    if |ordered| != |stages| {
      StuckIsNotOrderable(g, ordered);
      return Err(UnresolvedCycle);
    }
    assert IsOrder(g, ordered);
    order := Ok(ordered);
  }

  lemma SortedStaysDistinct(s: seq<string>)
    requires Distinct(s)
    ensures Distinct(Sorted(s, Less))
  {
    SortedPermutes(s, Less);
    DistinctMeansOnce(s);
    DistinctMeansOnce(Sorted(s, Less));
  }

  lemma StartsRight(g: Graph, indegree: map<string, int>, ready: set<string>)
    requires indegree.Keys == g.Keys && (forall n | n in g :: indegree[n] == |g[n]|)
    requires forall n :: n in ready <==> n in g && indegree[n] == 0
    ensures Canonical(g, []) && Counts(g, [], indegree) && IsFrontier(g, [], ready)
  {
    forall n | n in g
      ensures indegree[n] == Pending(g, [], n)
    {
      PendingZero(g, [], n);
    }
  }

  lemma StuckIsNotOrderable(g: Graph, done: seq<string>)
    requires IsFrontier(g, done, {}) && !Covers(g, done)
    ensures !Orderable(g)
  {
    forall order
      ensures !IsOrder(g, order)
    {
      if IsOrder(g, order) {
        SomeStageIsReady(g, order, done);
      }
    }
  }

  // ----- Skipping -----

  datatype SkipReason = Requested | DependencySkipped

  datatype PlanEntry = PlanEntry(name: string, reason: Option<SkipReason>, blockedBy: seq<string>)

  /** The stage is requested to be skipped, or depends on such a stage over any number of steps. */
  ghost predicate Blocked(g: Graph, skip: seq<string>, n: string) {
    exists p :: IsPath(g, p) && p[0] == n && p[|p| - 1] in skip
  }

  /** Being blocked comes from a request or from a direct dependency. */
  lemma BlockedByDependency(g: Graph, skip: seq<string>, n: string)
    requires Closed(g) && n in g
    ensures Blocked(g, skip, n) <==> n in skip || exists d :: d in g[n] && Blocked(g, skip, d)
  {
    if Blocked(g, skip, n) && n !in skip {
      var p :| IsPath(g, p) && p[0] == n && p[|p| - 1] in skip;
      assert |p| > 1;
      var rest := p[1..];
      forall i | 0 <= i < |rest| - 1
        ensures rest[i + 1] in g[rest[i]]
      {
        assert rest[i] == p[i + 1] && rest[i + 1] == p[i + 2];
      }
      assert p[1] in g[n] && Blocked(g, skip, p[1]);
    }
    if n in skip {
      assert IsPath(g, [n]);
    }
    if d :| d in g[n] && Blocked(g, skip, d) {
      var p :| IsPath(g, p) && p[0] == d && p[|p| - 1] in skip;
      var longer := [n] + p;
      forall i | 0 <= i < |longer| - 1
        ensures longer[i + 1] in g[longer[i]]
      {
        assert i > 0 ==> longer[i] == p[i - 1] && longer[i + 1] == p[i];
      }
      assert IsPath(g, longer);
    }
  }

  function Those(names: seq<string>, chosen: set<string>): seq<string> {
    if names == [] then []
    else Those(names[..|names| - 1], chosen) + (if names[|names| - 1] in chosen then [names[|names| - 1]] else [])
  }

  lemma {:induction false} ThoseHold(names: seq<string>, chosen: set<string>)
    ensures forall n :: n in Those(names, chosen) <==> n in names && n in chosen
  {
    if names != [] {
      ThoseHold(names[..|names| - 1], chosen);
      assert names == names[..|names| - 1] + [names[|names| - 1]];
    }
  }

  /** What the plan says about one stage. */
  ghost predicate IsEntry(g: Graph, skip: seq<string>, n: string, entry: PlanEntry) {
    && entry.name == n && n in g
    && (entry.reason == Some(Requested) <==> n in skip)
    && (entry.reason.Some? <==> Blocked(g, skip, n))
    && Ascending(entry.blockedBy, Less)
    && (forall d :: d in entry.blockedBy <==> n !in skip && d in g[n] && Blocked(g, skip, d))
  }

  ghost predicate IsPlan(g: Graph, skip: seq<string>, order: seq<string>, plan: seq<PlanEntry>) {
    |plan| == |order| && forall i | 0 <= i < |plan| :: IsEntry(g, skip, order[i], plan[i])
  }

  lemma NamesAreTotal(names: seq<string>)
    ensures StrictOrder(Less) && TotalOn(names, Less)
  {
    forall a: string, b: string
      ensures !Less(a, a) && (a == b || Less(a, b) || Less(b, a))
    {
      LessIrreflexive(a);
      LessTotal(a, b);
    }
    forall a: string, b: string, c: string | Less(a, b) && Less(b, c)
      ensures Less(a, c)
    {
      LessTransitive(a, b, c);
    }
  }

  /** The decision about the next stage, from the stages before it that are skipped. */
  method Decide(g: Graph, skip: seq<string>, ghost done: seq<string>, n: string, skipped: set<string>) returns (entry: PlanEntry)
    requires Closed(g) && Ready(g, done, n)
    requires forall m :: m in skipped <==> m in done && Blocked(g, skip, m)
    ensures IsEntry(g, skip, n, entry)
  {
    hide Blocked, Less, Ascending, Sorted;
    BlockedByDependency(g, skip, n);
    if n in skip {
      AscendingNothing();
      return PlanEntry(n, Some(Requested), []);
    }
    var found := Those(g[n], skipped);
    ThoseHold(g[n], skipped);
    NamesAreTotal(found);
    SortedAscends(found, Less);
    SortedPermutes(found, Less);
    var blockedBy := Sorted(found, Less);
    if blockedBy != [] {
      assert blockedBy[0] in found;
      return PlanEntry(n, Some(DependencySkipped), blockedBy);
    }
    assert forall d :: d !in found;
    entry := PlanEntry(n, None, blockedBy);
  }

  lemma AscendingNothing()
    ensures Ascending([], Less)
  {
  }

  /** `build_plan`, over the canonical order: skipped is exactly what is requested or depends on it. */
  method BuildPlan(stages: seq<Stage>, skip: seq<string>) returns (r: Result<seq<PlanEntry>, RegistryError>, ghost order: seq<string>)
    requires WellFormed(stages) && Orderable(GraphOf(stages))
    ensures r.Ok? <==> Distinct(skip) && forall s | s in skip :: s != "" && s in GraphOf(stages)
    ensures r.Ok? ==>
      && Canonical(GraphOf(stages), order) && Covers(GraphOf(stages), order) && IsPlan(GraphOf(stages), skip, order, r.value)
  {
    hide GraphOf, Canonical, Covers, IsEntry, Distinct, Blocked;
    var g := GraphOf(stages);
    order := [];
    if !Distinct(skip) || exists s :: s in skip && (s == "" || s !in g) {
      return Err(InvalidSkip), order;
    }
    GraphIsSound(stages);
    var topological := TopologicalStages(stages);
    if topological.Err? {
      assert false;
    }
    var names := topological.value;
    order := names;
    CanonicalRespects(g, names);
    var skipped: set<string> := {};
    var plan: seq<PlanEntry> := [];
    for i := 0 to |names|
      invariant |plan| == i && forall k | 0 <= k < i :: IsEntry(g, skip, names[k], plan[k])
      invariant forall m :: m in skipped <==> m in names[..i] && Blocked(g, skip, m)
    {
      assert names[..i + 1] == names[..i] + [names[i]];
      var entry := Decide(g, skip, names[..i], names[i], skipped);
      SkippedMeansBlocked(g, skip, names[i], entry);
      if entry.reason.Some? {
        skipped := skipped + {names[i]};
      }
      plan := plan + [entry];
    }
    r := Ok(plan);
  }

  lemma SkippedMeansBlocked(g: Graph, skip: seq<string>, n: string, entry: PlanEntry)
    requires IsEntry(g, skip, n, entry)
    ensures entry.reason.Some? <==> Blocked(g, skip, n)
  {
  }

  /** Every stage is in exactly one of three cases: requested, skipped for the skipped dependencies that are listed, or executed. */
  lemma PlanDecides(g: Graph, skip: seq<string>, order: seq<string>, plan: seq<PlanEntry>, i: nat)
    requires Closed(g) && IsPlan(g, skip, order, plan) && i < |plan|
    ensures var n, entry := order[i], plan[i];
      && entry.name == n
      && (n in skip ==> entry == PlanEntry(n, Some(Requested), []))
      && (n !in skip && (exists d :: d in g[n] && Blocked(g, skip, d)) ==> entry.reason == Some(DependencySkipped) && entry.blockedBy != [])
      && (n !in skip && !(exists d :: d in g[n] && Blocked(g, skip, d)) ==> entry == PlanEntry(n, None, []))
  {
    hide Blocked, Ascending;
    assert IsEntry(g, skip, order[i], plan[i]);
    BlockedByDependency(g, skip, order[i]);
    assert plan[i].reason.Some? ==> plan[i].reason.value == Requested || plan[i].reason.value == DependencySkipped;
    if plan[i].blockedBy != [] {
      assert plan[i].blockedBy[0] in plan[i].blockedBy;
    }
  }

  /** An executable stage never waits for a skipped one: all its dependencies are executable and come earlier. */
  lemma ExecutableHasItsInputs(g: Graph, skip: seq<string>, order: seq<string>, plan: seq<PlanEntry>, i: nat, d: string)
    requires Closed(g) && Respects(g, order) && IsPlan(g, skip, order, plan)
    requires i < |plan| && plan[i].reason.None? && d in g[order[i]]
    ensures exists k :: 0 <= k < i && plan[k].name == d && plan[k].reason.None?
  {
    hide Blocked, Ascending;
    assert IsEntry(g, skip, order[i], plan[i]) && Ready(g, order[..i], order[i]);
    assert d in order[..i];
    var k :| 0 <= k < i && order[..i][k] == d;
    assert IsEntry(g, skip, order[k], plan[k]);
    BlockedByDependency(g, skip, order[i]);
  }

  lemma {:induction false} SameGraph(a: seq<Stage>, b: seq<Stage>)
    requires WellFormed(a) && WellFormed(b) && multiset(a) == multiset(b)
    ensures GraphOf(a) == GraphOf(b)
  {
    hide GraphOf, WellFormed;
    GraphIsSound(a);
    GraphIsSound(b);
    SameElements(a, b);
    var g, h := GraphOf(a), GraphOf(b);
    forall n
      ensures n in g <==> n in h
      ensures n in g ==> g[n] == h[n]
    {
      if n in g {
        var i :| 0 <= i < |Names(a)| && Names(a)[i] == n;
        assert a[i] in b;
      }
      if n in h {
        var i :| 0 <= i < |Names(b)| && Names(b)[i] == n;
        assert b[i] in a;
      }
    }
  }

  /** The order in which stages are registered makes no difference to the plan's order. */
  lemma RegistrationOrderDoesNotMatter(a: seq<Stage>, b: seq<Stage>, orderA: seq<string>, orderB: seq<string>)
    requires WellFormed(a) && WellFormed(b) && multiset(a) == multiset(b)
    requires Canonical(GraphOf(a), orderA) && Covers(GraphOf(a), orderA)
    requires Canonical(GraphOf(b), orderB) && Covers(GraphOf(b), orderB)
    ensures orderA == orderB
  {
    SameGraph(a, b);
    CanonicalIsUnique(GraphOf(a), orderA, orderB);
  }
}
