/**
 * Road graph diagnostics: a union-find over node names with path compression, and degree counts, proved
 * against the graph itself.
 */
module RoadDiagnostics {
  import opened Prelude
  import opened RoadGraph
  import Sorting

  type Names = map<string, string>

  // ----- The parent map as a forest -----

  /**
   * `v` stands under `root[v]`, as its parent does. Heights fall along parents, so following them ends at
   * the root, and the root of a node is determined by the parent map alone.
   */
  ghost predicate Placed(parent: Names, root: Names, height: map<string, nat>, v: string) {
    && v in parent && v in root && v in height
    && parent[v] in parent && parent[v] in root && parent[v] in height
    && root[v] in parent && root[v] in root && root[v] in height
    && root[parent[v]] == root[v]
    && parent[root[v]] == root[v] && root[root[v]] == root[v]
    && (parent[v] == v <==> root[v] == v)
    && (parent[v] != v ==> height[parent[v]] < height[v] && height[root[v]] < height[v])
  }

  ghost predicate Forest(parent: Names, root: Names, height: map<string, nat>) {
    && root.Keys == parent.Keys && height.Keys == parent.Keys
    && forall v {:trigger Placed(parent, root, height, v)} :: v in parent ==> Placed(parent, root, height, v)
  }

  /** The nodes that are their own parents. */
  ghost function RootsOf(parent: Names): set<string> {
    set v | v in parent && parent[v] == v
  }

  lemma AddKeepsForest(parent: Names, root: Names, height: map<string, nat>, v: string)
    requires Forest(parent, root, height) && v !in parent
    ensures Forest(parent[v := v], root[v := v], height[v := 0])
    ensures RootsOf(parent[v := v]) == RootsOf(parent) + {v}
  {
    var p, r, h := parent[v := v], root[v := v], height[v := 0];
    forall w | w in p
      ensures Placed(p, r, h, w)
    {
      if w != v {
        assert Placed(parent, root, height, w);
      }
    }
  }

  lemma CompressKeepsForest(parent: Names, root: Names, height: map<string, nat>, v: string)
    requires Forest(parent, root, height) && v in parent && Placed(parent, root, height, v) && parent[v] != v
    ensures Forest(parent[v := root[v]], root, height)
  {
    var p := parent[v := root[v]];
    forall w | w in p
      ensures Placed(p, root, height, w)
    {
      assert Placed(parent, root, height, w);
      assert Placed(parent, root, height, root[w]);
    }
  }

  lemma CompressKeepsRoots(parent: Names, root: Names, height: map<string, nat>, v: string)
    requires v in parent && Placed(parent, root, height, v) && parent[v] != v
    ensures RootsOf(parent[v := root[v]]) == RootsOf(parent)
  {
  }

  function Moved(root: Names, left: string, right: string): Names {
    map v | v in root :: if root[v] == right then left else root[v]
  }

  ghost function Raised(root: Names, height: map<string, nat>, right: string, lift: nat): map<string, nat>
    requires root.Keys == height.Keys
  {
    map v | v in height :: if root[v] == right then height[v] + lift else height[v]
  }

  lemma AttachKeepsPlace(parent: Names, root: Names, height: map<string, nat>, left: string, right: string, w: string)
    requires Forest(parent, root, height) && left in parent && right in parent && left != right && w in parent
    requires root[left] == left && root[right] == right && root.Keys == height.Keys == parent.Keys
    requires Placed(parent, root, height, left) && Placed(parent, root, height, right) && Placed(parent, root, height, w)
    requires parent[w] in parent && Placed(parent, root, height, parent[w]) && root[w] in parent && Placed(parent, root, height, root[w])
    ensures Placed(parent[right := left], Moved(root, left, right), Raised(root, height, right, height[left] + 1), w)
  {
    hide Forest;
  }

  lemma AttachKeepsForest(parent: Names, root: Names, height: map<string, nat>, left: string, right: string)
    requires Forest(parent, root, height) && left in parent && right in parent && left != right
    requires Placed(parent, root, height, left) && Placed(parent, root, height, right)
    requires root[left] == left && root[right] == right
    ensures Forest(parent[right := left], Moved(root, left, right), Raised(root, height, right, height[left] + 1))
    ensures RootsOf(parent[right := left]) == RootsOf(parent) - {right}
  {
    hide Placed;
    var p, r, h := parent[right := left], Moved(root, left, right), Raised(root, height, right, height[left] + 1);
    forall w | w in p
      ensures Placed(p, r, h, w)
    {
      PlacedMeans(parent, root, height, w);
      assert Placed(parent, root, height, parent[w]);
      assert Placed(parent, root, height, root[w]);
      AttachKeepsPlace(parent, root, height, left, right, w);
    }
    PlacedMeans(parent, root, height, right);
  }

  lemma PlacedMeans(parent: Names, root: Names, height: map<string, nat>, w: string)
    requires Forest(parent, root, height) && w in parent
    ensures Placed(parent, root, height, w) && parent[w] in parent && w in root && root[w] in parent
    ensures root[w] == w <==> parent[w] == w
  {
    assert Placed(parent, root, height, w);
  }

  lemma JoiningKeepsForest(parent: Names, root: Names, height: map<string, nat>, left: string, right: string)
    requires Forest(parent, root, height) && left in parent && right in parent
    requires left in root && right in root && root[left] != root[right]
    ensures root[left] in height && root.Keys == height.Keys
    ensures var l, r := root[left], root[right];
      && Forest(parent[r := l], Moved(root, l, r), Raised(root, height, r, height[l] + 1))
      && RootsOf(parent[r := l]) == RootsOf(parent) - {r}
      && parent[r := l].Keys == parent.Keys
  {
    assert Placed(parent, root, height, left) && Placed(parent, root, height, right);
    assert Placed(parent, root, height, root[left]) && Placed(parent, root, height, root[right]);
    hide RootsOf, Moved, Raised;
    AttachKeepsForest(parent, root, height, root[left], root[right]);
  }

  class DisjointSets {
    var parent: Names
    ghost var root: Names
    ghost var height: map<string, nat>

    ghost predicate Valid()
      reads this
    {
      Forest(parent, root, height)
    }

    constructor ()
      ensures Valid() && parent == map[]
    {
      parent, root, height := map[], map[], map[];
    }

    method AddNode(v: string)
      requires Valid()
      modifies this
      ensures Valid()
      ensures v in old(parent) ==> parent == old(parent) && root == old(root)
      ensures v !in old(parent) ==> parent == old(parent)[v := v] && root == old(root)[v := v]
    {
      if v !in parent {
        AddKeepsForest(parent, root, height, v);
        parent, root, height := parent[v := v], root[v := v], height[v := 0];
      }
    }

    /** `find`: the root of `v`. Compression rewrites parents, and leaves every node under its root. */
    method Find(v: string) returns (r: string)
      requires Valid() && v in parent
      modifies this`parent
      ensures Valid() && parent.Keys == old(parent.Keys) && RootsOf(parent) == old(RootsOf(parent))
      ensures v in root && r == root[v] && r in RootsOf(parent)
    {
      assert Placed(parent, root, height, v);
      r := v;
      while parent[r] != r
        invariant r in parent && Placed(parent, root, height, r) && root[r] == root[v]
        decreases height[r]
      {
        assert Placed(parent, root, height, parent[r]);
        r := parent[r];
      }
      var node := v;
      while parent[node] != node
        invariant Valid() && parent.Keys == old(parent.Keys) && RootsOf(parent) == old(RootsOf(parent))
        invariant node in parent && Placed(parent, root, height, node) && root[node] == r && r == root[v]
        decreases height[node]
      {
        var next := parent[node];
        CompressKeepsForest(parent, root, height, node);
        CompressKeepsRoots(parent, root, height, node);
        parent := parent[node := r];
        node := next;
        assert Placed(parent, root, height, next);
      }
    }

    /** `union`: the right tree goes under the left root. */
    method Union(left: string, right: string)
      requires Valid() && left in parent && right in parent
      modifies this
      ensures Valid() && parent.Keys == old(parent.Keys)
      ensures left in old(root) && right in old(root)
      ensures root == if old(root)[left] == old(root)[right] then old(root) else Moved(old(root), old(root)[left], old(root)[right])
      ensures RootsOf(parent) == if old(root)[left] == old(root)[right] then old(RootsOf(parent))
                                 else old(RootsOf(parent)) - {old(root)[right]}
      ensures old(root)[right] in old(RootsOf(parent))
    {
      hide Moved, Raised, RootsOf, Forest, Placed;
      var leftRoot := Find(left);
      var rightRoot := Find(right);
      if leftRoot != rightRoot {
        JoiningKeepsForest(parent, root, height, left, right);
        parent := parent[rightRoot := leftRoot];
        root, height := Moved(root, leftRoot, rightRoot), Raised(root, height, rightRoot, height[leftRoot] + 1);
      }
    }
  }

  // ----- The forest as the graph's connection relation -----

  ghost predicate ConnectedToRoot(edges: seq<Edge>, root: Names, v: string) {
    v in root && root[v] in root && Connected(edges, v, root[v])
  }

  predicate EndsUnderOneRoot(root: Names, e: Edge) {
    TwoEnded(e) ==> e.source.value in root && e.target.value in root && root[e.source.value] == root[e.target.value]
  }

  /** Every node is connected to its root, and both ends of every edge stand under the same root. */
  ghost predicate Represents(edges: seq<Edge>, root: Names) {
    && (forall v {:trigger ConnectedToRoot(edges, root, v)} :: v in root ==> ConnectedToRoot(edges, root, v))
    && (forall e {:trigger EndsUnderOneRoot(root, e)} :: e in edges ==> EndsUnderOneRoot(root, e))
  }

  lemma {:induction false} PathStaysUnderRoot(edges: seq<Edge>, root: Names, p: seq<string>)
    requires Represents(edges, root) && IsPath(edges, p) && p[0] in root
    ensures p[|p| - 1] in root && root[p[|p| - 1]] == root[p[0]]
  {
    if |p| > 1 {
      assert Adjacent(edges, p[0], p[1]);
      var e :| e in edges && Joins(e, p[0], p[1]);
      assert EndsUnderOneRoot(root, e);
      assert p[1] in root && root[p[1]] == root[p[0]];
      forall i | 0 <= i < |p[1..]| - 1
        ensures Adjacent(edges, p[1..][i], p[1..][i + 1])
      {
        assert Adjacent(edges, p[i + 1], p[i + 2]);
      }
      PathStaysUnderRoot(edges, root, p[1..]);
    }
  }

  /** Same root exactly when connected. */
  lemma SameRootIsConnected(edges: seq<Edge>, root: Names, a: string, b: string)
    requires Represents(edges, root) && a in root && b in root
    ensures root[a] == root[b] <==> Connected(edges, a, b)
  {
    assert ConnectedToRoot(edges, root, a) && ConnectedToRoot(edges, root, b);
    if root[a] == root[b] {
      ConnectedSymmetric(edges, b, root[b]);
      ConnectedTransitive(edges, a, root[a], b);
    }
    if Connected(edges, a, b) {
      var p :| Links(edges, p, a, b);
      PathStaysUnderRoot(edges, root, p);
    }
  }

  lemma AdjacentGrows(edges: seq<Edge>, e: Edge)
    ensures forall x, y :: Adjacent(edges, x, y) ==> Adjacent(edges + [e], x, y)
    ensures TwoEnded(e) ==> Adjacent(edges + [e], e.source.value, e.target.value)
  {
    forall x, y | Adjacent(edges, x, y)
      ensures Adjacent(edges + [e], x, y)
    {
      var f :| f in edges && Joins(f, x, y);
      assert f in edges + [e];
    }
    if TwoEnded(e) {
      assert e in edges + [e] && Joins(e, e.source.value, e.target.value);
    }
  }

  lemma ConnectedAcross(edges: seq<Edge>, e: Edge, v: string, under: string, other: string)
    requires TwoEnded(e) && Connected(edges, v, under)
    requires Connected(edges, e.target.value, under) && Connected(edges, e.source.value, other)
    ensures Connected(edges + [e], v, other)
  {
    var s, t, more := e.source.value, e.target.value, edges + [e];
    AdjacentGrows(edges, e);
    ConnectedByEdge(more, s, t);
    hide Connected, Adjacent;
    ConnectedGrows(edges, more, v, under);
    ConnectedGrows(edges, more, t, under);
    ConnectedGrows(edges, more, s, other);
    ConnectedSymmetric(more, t, under);
    ConnectedSymmetric(more, s, t);
    ConnectedTransitive(more, v, under, t);
    ConnectedTransitive(more, v, t, s);
    ConnectedTransitive(more, v, s, other);
  }

  lemma RootAfterUnion(edges: seq<Edge>, e: Edge, root: Names, root': Names, v: string)
    requires Represents(edges, root) && TwoEnded(e)
    requires var s, t := e.source.value, e.target.value;
      s in root && t in root && root' == if root[s] == root[t] then root else Moved(root, root[s], root[t])
    requires v in root
    ensures ConnectedToRoot(edges + [e], root', v)
  {
    AdjacentGrows(edges, e);
    var s, t := e.source.value, e.target.value;
    assert ConnectedToRoot(edges, root, s) && ConnectedToRoot(edges, root, t) && ConnectedToRoot(edges, root, v);
    if root[v] == root'[v] {
      ConnectedGrows(edges, edges + [e], v, root[v]);
    } else {
      ConnectedAcross(edges, e, v, root[t], root[s]);
    }
  }

  /** Joining the roots of an edge's ends is what adding the edge does to the relation. */
  lemma UnionRepresents(edges: seq<Edge>, e: Edge, root: Names, root': Names)
    requires Represents(edges, root) && TwoEnded(e)
    requires var s, t := e.source.value, e.target.value;
      s in root && t in root && root' == if root[s] == root[t] then root else Moved(root, root[s], root[t])
    ensures Represents(edges + [e], root')
  {
    hide Connected, Adjacent, ConnectedToRoot;
    assert root'.Keys == root.Keys;
    forall v | v in root'
      ensures ConnectedToRoot(edges + [e], root', v)
    {
      RootAfterUnion(edges, e, root, root', v);
    }
    forall f | f in edges + [e]
      ensures EndsUnderOneRoot(root', f)
    {
      if f in edges {
        assert EndsUnderOneRoot(root, f);
      }
    }
  }

  /** An edge with a missing end changes nothing but the nodes. */
  lemma OneEndRepresents(edges: seq<Edge>, e: Edge, root: Names)
    requires Represents(edges, root) && !TwoEnded(e)
    ensures Represents(edges + [e], root)
  {
    AdjacentGrows(edges, e);
    hide Connected, Adjacent;
    forall v | v in root
      ensures ConnectedToRoot(edges + [e], root, v)
    {
      assert ConnectedToRoot(edges, root, v);
      ConnectedGrows(edges, edges + [e], v, root[v]);
    }
    forall f | f in edges + [e]
      ensures EndsUnderOneRoot(root, f)
    {
      if f in edges {
        assert EndsUnderOneRoot(root, f);
      }
    }
  }

  lemma AddRepresents(edges: seq<Edge>, root: Names, v: string)
    requires Represents(edges, root) && v !in root
    ensures Represents(edges, root[v := v])
  {
    ConnectedReflexive(edges, v);
    hide Connected;
    var root' := root[v := v];
    forall w | w in root'
      ensures ConnectedToRoot(edges, root', w)
    {
      if w != v {
        assert ConnectedToRoot(edges, root, w);
      }
    }
    forall f | f in edges
      ensures EndsUnderOneRoot(root', f)
    {
      assert EndsUnderOneRoot(root, f);
    }
  }

  // ----- Counting components -----

  /** Edges that join two nodes not connected before, in the order the edges come. */
  ghost function EffectiveUnions(edges: seq<Edge>): nat {
    if edges == [] then 0
    else
      var init, e := edges[..|edges| - 1], edges[|edges| - 1];
      EffectiveUnions(init) + (if TwoEnded(e) && !Connected(init, e.source.value, e.target.value) then 1 else 0)
  }

  lemma ComponentsMeetOnlyWhenEqual(edges: seq<Edge>, a: string, b: string)
    requires a in Nodes(edges) && b in Nodes(edges)
    ensures Component(edges, a) == Component(edges, b) <==> Connected(edges, a, b)
  {
    if Component(edges, a) == Component(edges, b) {
      ConnectedReflexive(edges, b);
      assert b in Component(edges, a);
    }
    if Connected(edges, a, b) {
      ConnectedSymmetric(edges, a, b);
      forall w
        ensures w in Component(edges, a) <==> w in Component(edges, b)
      {
        if w in Component(edges, a) {
          ConnectedTransitive(edges, b, a, w);
        }
        if w in Component(edges, b) {
          ConnectedTransitive(edges, a, b, w);
        }
      }
    }
  }

  ghost function ComponentsOf(edges: seq<Edge>, vs: set<string>): set<set<string>> {
    set v | v in vs :: Component(edges, v)
  }

  lemma OneMoreComponent(edges: seq<Edge>, vs: set<string>, v: string)
    requires v !in vs && forall w | w in vs :: Component(edges, w) != Component(edges, v)
    ensures |ComponentsOf(edges, vs + {v})| == |ComponentsOf(edges, vs)| + 1
  {
    hide Component;
    assert ComponentsOf(edges, vs + {v}) == ComponentsOf(edges, vs) + {Component(edges, v)};
    assert Component(edges, v) !in ComponentsOf(edges, vs);
  }

  /** Pairwise unconnected nodes have as many components as there are nodes. */
  lemma {:induction false} DistinctComponents(edges: seq<Edge>, vs: set<string>)
    requires vs <= Nodes(edges)
    requires forall a, b | a in vs && b in vs && a != b :: !Connected(edges, a, b)
    ensures |ComponentsOf(edges, vs)| == |vs|
  {
    hide Connected, Nodes, Component, ComponentsOf;
    if vs == {} {
      NoComponents(edges);
    } else {
      var v :| v in vs;
      DistinctComponents(edges, vs - {v});
      forall w | w in vs - {v}
        ensures Component(edges, w) != Component(edges, v)
      {
        ComponentsMeetOnlyWhenEqual(edges, w, v);
      }
      OneMoreComponent(edges, vs - {v}, v);
      assert vs - {v} + {v} == vs;
    }
  }

  lemma NoComponents(edges: seq<Edge>)
    ensures |ComponentsOf(edges, {})| == 0
  {
    assert ComponentsOf(edges, {}) == {};
  }

  /** One root per component. */
  lemma RootsAreComponents(edges: seq<Edge>, root: Names, roots: set<string>)
    requires Represents(edges, root) && root.Keys == Nodes(edges)
    requires forall v | v in root :: root[v] in roots
    requires forall r | r in roots :: r in root && root[r] == r
    ensures |roots| == |Components(edges)|
  {
    forall a, b | a in roots && b in roots && a != b
      ensures !Connected(edges, a, b)
    {
      SameRootIsConnected(edges, root, a, b);
    }
    DistinctComponents(edges, roots);
    forall c
      ensures c in Components(edges) <==> c in ComponentsOf(edges, roots)
    {
      if c in Components(edges) {
        var v :| v in Nodes(edges) && c == Component(edges, v);
        assert ConnectedToRoot(edges, root, v);
        ComponentsMeetOnlyWhenEqual(edges, v, root[v]);
      }
    }
    assert Components(edges) == ComponentsOf(edges, roots);
  }

  // ----- The diagnostics -----

  datatype Diagnostics = Diagnostics(
    edgeCount: int, roadCount: int, nodeCount: int, componentCount: int, deadEndNodeCount: int, deadEndRatio: real,
    totalLengthM: real, classCounts: map<string, int>, originCounts: map<string, int>)

  ghost function RoadIds(edges: seq<Edge>): set<string> {
    set e | e in edges && e.roadId != "" :: e.roadId
  }

  ghost function DeadEnds(edges: seq<Edge>): set<string> {
    set v | v in Nodes(edges) && Degree(edges, v) == 1
  }

  ghost function NamesIn(edges: seq<Edge>, name: Edge -> string): set<string> {
    set e | e in edges :: name(e)
  }

  /** How many edges carry each name that occurs. */
  ghost function Counts(edges: seq<Edge>, name: Edge -> string): map<string, int> {
    map n | n in NamesIn(edges, name) :: NameCount(edges, name, n)
  }

  function Ratio(part: int, whole: int): real
    requires whole >= 0
  {
    if whole == 0 then 0.0 else part as real / whole as real
  }

  /** What the diagnostics mean, read off the graph. */
  ghost function Describe(edges: seq<Edge>): Diagnostics {
    Diagnostics(|edges|, |RoadIds(edges)|, |Nodes(edges)|, |Components(edges)|,
                |DeadEnds(edges)|, Ratio(|DeadEnds(edges)|, |Nodes(edges)|), TotalLength(edges),
                Counts(edges, ClassOf), Counts(edges, OriginOf))
  }

  /** One more edge on the end. */
  lemma AppendTotal(edges: seq<Edge>, e: Edge, f: Edge -> int)
    ensures Total(edges + [e], f) == Total(edges, f) + f(e)
  {
    assert (edges + [e])[..|edges|] == edges;
  }

  lemma AppendUnions(edges: seq<Edge>, e: Edge)
    ensures EffectiveUnions(edges + [e])
         == EffectiveUnions(edges) + (if TwoEnded(e) && !Connected(edges, e.source.value, e.target.value) then 1 else 0)
  {
    assert (edges + [e])[..|edges|] == edges;
  }

  lemma AppendNodes(edges: seq<Edge>, e: Edge)
    ensures Nodes(edges + [e]) == Nodes(edges) + Ends(e)
  {
  }

  /** A forest that represents the edges so far, with one root lost per effective union. */
  ghost predicate Reflects(edges: seq<Edge>, nodes: set<string>, sets: DisjointSets)
    reads sets
  {
    && sets.Valid() && Represents(edges, sets.root) && sets.parent.Keys == nodes
    && |RootsOf(sets.parent)| + EffectiveUnions(edges) == |nodes|
  }

  ghost predicate HasDegrees(edges: seq<Edge>, degree: map<string, int>) {
    degree.Keys == Nodes(edges) && forall v | v in degree :: degree[v] == Degree(edges, v)
  }

  lemma DegreeOfMissing(edges: seq<Edge>, v: string)
    requires v !in Nodes(edges)
    ensures Degree(edges, v) == 0
  {
    if edges != [] {
      var init := edges[..|edges| - 1];
      assert edges == init + [edges[|edges| - 1]];
      AppendNodes(init, edges[|edges| - 1]);
      DegreeOfMissing(init, v);
    }
  }

  lemma AppendDegree(edges: seq<Edge>, e: Edge, v: string)
    ensures Degree(edges + [e], v) == Degree(edges, v) + EndsAt(e, v)
  {
    AppendTotal(edges, e, (x: Edge) => EndsAt(x, v));
  }

  function Bump(degree: map<string, int>, node: Option<string>): map<string, int> {
    if Present(node) then degree[node.value := (if node.value in degree then degree[node.value] else 0) + 1] else degree
  }

  lemma BumpsKeepDegrees(edges: seq<Edge>, e: Edge, degree: map<string, int>)
    requires HasDegrees(edges, degree)
    ensures HasDegrees(edges + [e], Bump(Bump(degree, e.source), e.target))
  {
    hide Degree, Nodes;
    var more := Bump(Bump(degree, e.source), e.target);
    AppendNodes(edges, e);
    forall v | v in more
      ensures more[v] == Degree(edges + [e], v)
    {
      AppendDegree(edges, e, v);
      if v !in degree {
        DegreeOfMissing(edges, v);
      }
    }
  }

  /** `add_node` for one endpoint of an edge, when it names a node. */
  method AddEndpoint(ghost edges: seq<Edge>, ghost nodes: set<string>, node: Option<string>, sets: DisjointSets)
    requires Reflects(edges, nodes, sets)
    modifies sets
    ensures Reflects(edges, nodes + Named(node), sets)
  {
    hide Connected, Adjacent, Represents, EffectiveUnions, Placed;
    if Present(node) {
      var v := node.value;
      if v !in sets.parent {
        AddRepresents(edges, sets.root, v);
        assert RootsOf(sets.parent[v := v]) == RootsOf(sets.parent) + {v};
      } else {
        assert nodes + {v} == nodes;
      }
      sets.AddNode(v);
    }
  }

  /** `union` for the two ends of an edge whose nodes are already there. */
  method JoinEnds(ghost edges: seq<Edge>, ghost nodes: set<string>, e: Edge, sets: DisjointSets)
    requires Reflects(edges, nodes, sets) && TwoEnded(e) && e.source.value in nodes && e.target.value in nodes
    modifies sets
    ensures Reflects(edges + [e], nodes, sets)
  {
    hide Connected, Adjacent, Placed, ConnectedToRoot, EndsUnderOneRoot, EffectiveUnions, Forest, Represents, RootsOf, Moved;
    AppendUnions(edges, e);
    ghost var before := sets.root;
    sets.Union(e.source.value, e.target.value);
    SameRootIsConnected(edges, before, e.source.value, e.target.value);
    UnionRepresents(edges, e, before, sets.root);
  }

  /** One turn of the loop, the forest: both endpoints become nodes, and are joined. */
  method AddToForest(ghost edges: seq<Edge>, e: Edge, sets: DisjointSets)
    requires Reflects(edges, Nodes(edges), sets)
    modifies sets
    ensures Reflects(edges + [e], Nodes(edges + [e]), sets)
  {
    hide Reflects, Nodes;
    ghost var nodes := Nodes(edges);
    AddEndpoint(edges, nodes, e.source, sets);
    AddEndpoint(edges, nodes + Named(e.source), e.target, sets);
    assert nodes + Named(e.source) + Named(e.target) == nodes + Ends(e);
    AppendNodes(edges, e);
    if TwoEnded(e) {
      JoinEnds(edges, nodes + Ends(e), e, sets);
    } else {
      LoneEnd(edges, nodes + Ends(e), e, sets);
    }
  }

  lemma LoneEnd(edges: seq<Edge>, nodes: set<string>, e: Edge, sets: DisjointSets)
    requires Reflects(edges, nodes, sets) && !TwoEnded(e)
    ensures Reflects(edges + [e], nodes, sets)
  {
    hide Connected, Adjacent, Placed, ConnectedToRoot, EndsUnderOneRoot, EffectiveUnions, Forest, Represents, RootsOf;
    AppendUnions(edges, e);
    OneEndRepresents(edges, e, sets.root);
  }

  /** One turn of the loop: the forest, and the degrees, for one more edge. */
  method AddEdge(ghost edges: seq<Edge>, e: Edge, sets: DisjointSets, degree: map<string, int>) returns (more: map<string, int>)
    requires Reflects(edges, Nodes(edges), sets) && HasDegrees(edges, degree)
    modifies sets
    ensures Reflects(edges + [e], Nodes(edges + [e]), sets) && HasDegrees(edges + [e], more)
  {
    BumpsKeepDegrees(edges, e, degree);
    AddToForest(edges, e, sets);
    more := Bump(Bump(degree, e.source), e.target);
  }

  /** `len({find(node_id) for node_id in parent})`. */
  method CountComponents(ghost edges: seq<Edge>, sets: DisjointSets) returns (count: nat)
    requires Reflects(edges, Nodes(edges), sets)
    modifies sets
    ensures sets.Valid() && sets.parent.Keys == Nodes(edges)
    ensures count == |Components(edges)| && count == |Nodes(edges)| - EffectiveUnions(edges)
  {
    hide Connected, Adjacent, EffectiveUnions, Nodes, Components;
    ghost var root := sets.root;
    ghost var allRoots := RootsOf(sets.parent);
    var pending := sets.parent.Keys;
    var roots: set<string> := {};
    while pending != {}
      invariant sets.Valid() && sets.root == root && sets.parent.Keys == Nodes(edges) && RootsOf(sets.parent) == allRoots
      invariant pending <= sets.parent.Keys && roots <= allRoots
      invariant forall v | v in sets.parent && v !in pending :: v in root && root[v] in roots
      decreases |pending|
    {
      var v :| v in pending;
      var r := sets.Find(v);
      roots := roots + {r};
      pending := pending - {v};
    }
    forall r | r in allRoots
      ensures r in root && root[r] == r && r in roots
    {
      assert Placed(sets.parent, root, sets.height, r);
    }
    assert roots == allRoots;
    RootsAreComponents(edges, root, roots);
    count := |roots|;
  }

  lemma {:induction false} CountOfMissing(edges: seq<Edge>, name: Edge -> string, n: string)
    requires n !in NamesIn(edges, name)
    ensures NameCount(edges, name, n) == 0
  {
    if edges != [] {
      CountOfMissing(edges[..|edges| - 1], name, n);
    }
  }

  lemma AppendCounts(edges: seq<Edge>, e: Edge, name: Edge -> string)
    ensures var counts := Counts(edges, name);
      Counts(edges + [e], name) == counts[name(e) := (if name(e) in counts then counts[name(e)] else 0) + 1]
  {
    hide Total;
    var counts, more := Counts(edges, name), Counts(edges + [e], name);
    assert more.Keys == counts.Keys + {name(e)};
    forall n | n in more
      ensures more[n] == (if n in counts then counts[n] else 0) + (if n == name(e) then 1 else 0)
    {
      AppendTotal(edges, e, (x: Edge) => if name(x) == n then 1 else 0);
      if n !in counts {
        CountOfMissing(edges, name, n);
      }
    }
  }

  /** `Counter(...)` over one attribute of the edges. */
  method CountBy(edges: seq<Edge>, name: Edge -> string) returns (counts: map<string, int>)
    ensures counts == Counts(edges, name)
  {
    hide Counts;
    NoCounts(name);
    counts := map[];
    assert edges[..0] == [];
    for i := 0 to |edges|
      invariant counts == Counts(edges[..i], name)
    {
      assert edges[..i + 1] == edges[..i] + [edges[i]];
      AppendCounts(edges[..i], edges[i], name);
      var n := name(edges[i]);
      counts := counts[n := (if n in counts then counts[n] else 0) + 1];
    }
    assert edges[..|edges|] == edges;
  }

  lemma NoCounts(name: Edge -> string)
    ensures Counts([], name) == map[]
  {
  }

  /** `len({edge.road_id for edge in edges if edge.road_id})` and `sum(max(0.0, edge.length_m))`. */
  method CountRoads(edges: seq<Edge>) returns (roadCount: int, totalLengthM: real)
    ensures roadCount == |RoadIds(edges)| && totalLengthM == TotalLength(edges)
  {
    var ids: set<string> := {};
    totalLengthM := 0.0;
    for i := 0 to |edges|
      invariant ids == RoadIds(edges[..i])
      invariant totalLengthM == TotalLength(edges[..i])
    {
      assert edges[..i + 1] == edges[..i] + [edges[i]];
      assert edges[..i + 1][..i] == edges[..i];
      if edges[i].roadId != "" {
        ids := ids + {edges[i].roadId};
      }
      totalLengthM := totalLengthM + (if edges[i].lengthM > 0.0 then edges[i].lengthM else 0.0);
    }
    assert edges[..|edges|] == edges;
    roadCount := |ids|;
  }

  /** `sum(1 for node_id in parent if degree[node_id] == 1)`. */
  method CountDeadEnds(ghost edges: seq<Edge>, degree: map<string, int>) returns (count: int)
    requires HasDegrees(edges, degree)
    ensures count == |DeadEnds(edges)|
  {
    hide Degree, Nodes;
    var pending := degree.Keys;
    ghost var seen: set<string> := {};
    count := 0;
    while pending != {}
      invariant pending <= degree.Keys && seen <= degree.Keys
      invariant forall v :: v in seen <==> v in degree && v !in pending && degree[v] == 1
      invariant count == |seen|
      decreases |pending|
    {
      var v :| v in pending;
      pending := pending - {v};
      if degree[v] == 1 {
        count := count + 1;
        seen := seen + {v};
      }
    }
    assert seen == DeadEnds(edges);
  }

  /** `_graph_diagnostics`: every field is what the graph says it is. */
  method GraphDiagnostics(edges: seq<Edge>) returns (d: Diagnostics)
    ensures d == Describe(edges)
    ensures d.componentCount == d.nodeCount - EffectiveUnions(edges)
  {
    hide Reflects, HasDegrees, Components, Nodes, DeadEnds, RoadIds, TotalLength, Counts;
    var sets := new DisjointSets();
    var degree: map<string, int> := map[];
    NothingYet(sets);
    assert edges[..0] == [];
    for i := 0 to |edges|
      invariant fresh(sets)
      invariant Reflects(edges[..i], Nodes(edges[..i]), sets) && HasDegrees(edges[..i], degree)
    {
      assert edges[..i + 1] == edges[..i] + [edges[i]];
      degree := AddEdge(edges[..i], edges[i], sets, degree);
    }
    assert edges[..|edges|] == edges;
    var componentCount := CountComponents(edges, sets);
    var nodeCount := |sets.parent.Keys|;
    var deadEnds := CountDeadEnds(edges, degree);
    var classCounts := CountBy(edges, ClassOf);
    var originCounts := CountBy(edges, OriginOf);
    var roadCount, totalLengthM := CountRoads(edges);
    d := Diagnostics(|edges|, roadCount, nodeCount, componentCount, deadEnds, Ratio(deadEnds, nodeCount), totalLengthM,
                     classCounts, originCounts);
  }

  lemma NothingYet(sets: DisjointSets)
    requires sets.Valid() && sets.parent == map[]
    ensures Reflects([], Nodes([]), sets) && HasDegrees([], map[])
  {
  }

  // ----- What the diagnostics promise about each other -----

  lemma SameAdjacency(a: seq<Edge>, b: seq<Edge>)
    requires forall x, y :: Adjacent(a, x, y) <==> Adjacent(b, x, y)
    requires Nodes(a) == Nodes(b)
    ensures Components(a) == Components(b)
  {
    forall x, y
      ensures Connected(a, x, y) <==> Connected(b, x, y)
    {
      if Connected(a, x, y) {
        ConnectedGrows(a, b, x, y);
      }
      if Connected(b, x, y) {
        ConnectedGrows(b, a, x, y);
      }
    }
    SameConnection(a, b);
  }

  lemma SameConnection(a: seq<Edge>, b: seq<Edge>)
    requires forall x, y :: Connected(a, x, y) <==> Connected(b, x, y)
    requires Nodes(a) == Nodes(b)
    ensures Components(a) == Components(b)
  {
    hide Connected, Nodes;
    forall v
      ensures Component(a, v) == Component(b, v)
    {
    }
  }

  /** The diagnostics do not depend on the order in which the edges are read. */
  lemma DescribePermutes(a: seq<Edge>, b: seq<Edge>)
    requires multiset(a) == multiset(b)
    ensures Describe(a) == Describe(b)
  {
    hide Connected, Total, TotalLength, Components;
    assert |a| == |multiset(a)| == |multiset(b)| == |b|;
    assert forall e :: e in a <==> e in multiset(a);
    assert forall e :: e in b <==> e in multiset(b);
    assert Nodes(a) == Nodes(b) && RoadIds(a) == RoadIds(b);
    SameAdjacency(a, b);
    forall v
      ensures Degree(a, v) == Degree(b, v)
    {
      TotalsPermute(a, b, (e: Edge) => EndsAt(e, v));
    }
    CountsPermute(a, b, ClassOf);
    CountsPermute(a, b, OriginOf);
    TotalsPermute(a, b, _ => 0);
    assert DeadEnds(a) == DeadEnds(b);
  }

  lemma CountsPermute(a: seq<Edge>, b: seq<Edge>, name: Edge -> string)
    requires multiset(a) == multiset(b)
    ensures Counts(a, name) == Counts(b, name)
  {
    hide Total;
    assert forall e :: e in a <==> e in multiset(a);
    assert forall e :: e in b <==> e in multiset(b);
    assert NamesIn(a, name) == NamesIn(b, name);
    forall n
      ensures NameCount(a, name, n) == NameCount(b, name, n)
    {
      TotalsPermute(a, b, (e: Edge) => if name(e) == n then 1 else 0);
    }
  }

  function Flipped(e: Edge): Edge { e.(source := e.target, target := e.source) }

  lemma {:induction false} TotalFlips(edges: seq<Edge>, i: nat, f: Edge -> int)
    requires i < |edges| && f(Flipped(edges[i])) == f(edges[i])
    ensures Total(edges[i := Flipped(edges[i])], f) == Total(edges, f)
    ensures TotalLength(edges[i := Flipped(edges[i])]) == TotalLength(edges)
  {
    var last := |edges| - 1;
    var flipped := edges[i := Flipped(edges[i])];
    if i < last {
      TotalFlips(edges[..last], i, f);
      assert flipped[..last] == edges[..last][i := Flipped(edges[i])];
    } else {
      assert flipped[..last] == edges[..last];
    }
  }

  /** Nor on which end of an edge is called its source. */
  lemma DescribeFlips(edges: seq<Edge>, i: nat)
    requires i < |edges|
    ensures Describe(edges[i := Flipped(edges[i])]) == Describe(edges)
  {
    hide Connected, Total, TotalLength, Components;
    var flipped := edges[i := Flipped(edges[i])];
    FlippedMembers(edges, i);
    SameAdjacency(edges, flipped);
    forall v
      ensures Degree(flipped, v) == Degree(edges, v)
    {
      TotalFlips(edges, i, (e: Edge) => EndsAt(e, v));
    }
    assert DeadEnds(flipped) == DeadEnds(edges);
    CountsFlip(edges, i, ClassOf);
    CountsFlip(edges, i, OriginOf);
    TotalFlips(edges, i, _ => 0);
  }

  lemma FlippedMembers(edges: seq<Edge>, i: nat)
    requires i < |edges|
    ensures var flipped := edges[i := Flipped(edges[i])];
      && Nodes(flipped) == Nodes(edges) && RoadIds(flipped) == RoadIds(edges)
      && (forall x, y :: Adjacent(edges, x, y) <==> Adjacent(flipped, x, y))
  {
    var flipped := edges[i := Flipped(edges[i])];
    assert edges == flipped[i := Flipped(flipped[i])];
    FlipKeepsMembers(edges, i);
    FlipKeepsMembers(flipped, i);
  }

  lemma FlipKeepsMembers(edges: seq<Edge>, i: nat)
    requires i < |edges|
    ensures var flipped := edges[i := Flipped(edges[i])];
      && Nodes(edges) <= Nodes(flipped) && RoadIds(edges) <= RoadIds(flipped)
      && (forall x, y :: Adjacent(edges, x, y) ==> Adjacent(flipped, x, y))
  {
    var flipped := edges[i := Flipped(edges[i])];
    forall e | e in edges
      ensures e in flipped || Flipped(e) in flipped
    {
      var k :| 0 <= k < |edges| && edges[k] == e;
      assert flipped[k] == if k == i then Flipped(e) else e;
    }
    forall x, y | Adjacent(edges, x, y)
      ensures Adjacent(flipped, x, y)
    {
      var e :| e in edges && Joins(e, x, y);
      assert Joins(Flipped(e), x, y);
    }
    forall v | v in Nodes(edges)
      ensures v in Nodes(flipped)
    {
      var e :| e in edges && v in Ends(e);
      assert v in Ends(Flipped(e));
    }
    forall id | id in RoadIds(edges)
      ensures id in RoadIds(flipped)
    {
      var e :| e in edges && e.roadId == id;
      assert Flipped(e).roadId == id;
    }
  }

  lemma CountsFlip(edges: seq<Edge>, i: nat, name: Edge -> string)
    requires i < |edges| && name(Flipped(edges[i])) == name(edges[i])
    ensures Counts(edges[i := Flipped(edges[i])], name) == Counts(edges, name)
  {
    hide Total;
    var flipped := edges[i := Flipped(edges[i])];
    forall n
      ensures NameCount(flipped, name, n) == NameCount(edges, name, n)
    {
      TotalFlips(edges, i, (e: Edge) => if name(e) == n then 1 else 0);
    }
    forall n
      ensures n in NamesIn(flipped, name) <==> n in NamesIn(edges, name)
    {
      if k :| 0 <= k < |edges| && name(edges[k]) == n {
        assert flipped[k] in flipped && name(flipped[k]) == n;
      }
      if k :| 0 <= k < |flipped| && name(flipped[k]) == n {
        assert edges[k] in edges && name(edges[k]) == n;
      }
    }
    assert NamesIn(flipped, name) == NamesIn(edges, name);
  }

  // ----- Conservation: the per-node and per-name counts add up -----

  ghost function SumOver(keys: set<string>, f: string -> int): int {
    if keys == {} then 0
    else
      var k :| k in keys;
      f(k) + SumOver(keys - {k}, f)
  }

  lemma {:induction false} SumWithout(keys: set<string>, f: string -> int, x: string)
    requires x in keys
    ensures SumOver(keys, f) == f(x) + SumOver(keys - {x}, f)
    decreases |keys|
  {
    var k :| k in keys && SumOver(keys, f) == f(k) + SumOver(keys - {k}, f);
    if k != x {
      SumWithout(keys - {k}, f, x);
      SumWithout(keys - {x}, f, k);
      assert keys - {k} - {x} == keys - {x} - {k};
    }
  }

  lemma {:induction false} SumAdds(keys: set<string>, f: string -> int, g: string -> int, h: string -> int)
    requires forall k | k in keys :: h(k) == f(k) + g(k)
    ensures SumOver(keys, h) == SumOver(keys, f) + SumOver(keys, g)
    decreases |keys|
  {
    if keys != {} {
      var k :| k in keys;
      SumWithout(keys, f, k);
      SumWithout(keys, g, k);
      SumWithout(keys, h, k);
      SumAdds(keys - {k}, f, g, h);
    }
  }

  lemma {:induction false} SumOfIndicator(keys: set<string>, f: string -> int, x: string)
    requires forall k | k in keys :: f(k) == if k == x then 1 else 0
    ensures SumOver(keys, f) == if x in keys then 1 else 0
    decreases |keys|
  {
    if keys != {} {
      var k :| k in keys;
      SumWithout(keys, f, k);
      SumOfIndicator(keys - {k}, f, x);
    }
  }

  /** When one more edge adds `g` to each key's count, and `g` sums to `weight(e)`, the counts sum to the weights. */
  lemma SumsAppend(keys: set<string>, f: string -> int, g: string -> int, h: string -> int, edges: seq<Edge>, e: Edge, weight: Edge -> int)
    requires SumOver(keys, f) == Total(edges, weight) && SumOver(keys, g) == weight(e)
    requires forall k | k in keys :: h(k) == f(k) + g(k)
    ensures SumOver(keys, h) == Total(edges + [e], weight)
  {
    SumAdds(keys, f, g, h);
    AppendTotal(edges, e, weight);
  }

  function EndCount(e: Edge): int { (if Present(e.source) then 1 else 0) + (if Present(e.target) then 1 else 0) }

  lemma SumOfEnds(keys: set<string>, e: Edge)
    requires Ends(e) <= keys
    ensures SumOver(keys, (v: string) => EndsAt(e, v)) == EndCount(e)
  {
    var atSource := (v: string) => if Present(e.source) && e.source.value == v then 1 else 0;
    var atTarget := (v: string) => if Present(e.target) && e.target.value == v then 1 else 0;
    SumAdds(keys, atSource, atTarget, (v: string) => EndsAt(e, v));
    SumOfEnd(keys, atSource, e.source);
    SumOfEnd(keys, atTarget, e.target);
  }

  lemma SumOfEnd(keys: set<string>, f: string -> int, node: Option<string>)
    requires Named(node) <= keys
    requires forall k | k in keys :: f(k) == if Present(node) && node.value == k then 1 else 0
    ensures SumOver(keys, f) == if Present(node) then 1 else 0
  {
    if Present(node) {
      SumOfIndicator(keys, f, node.value);
    } else {
      SumAdds(keys, f, f, f);
    }
  }

  lemma {:induction false} DegreeSum(keys: set<string>, edges: seq<Edge>)
    requires Nodes(edges) <= keys
    ensures SumOver(keys, (v: string) => Degree(edges, v)) == Total(edges, EndCount)
  {
    if edges == [] {
      var zero := (v: string) => Degree(edges, v);
      SumAdds(keys, zero, zero, zero);
    } else {
      var init, e := edges[..|edges| - 1], edges[|edges| - 1];
      assert edges == init + [e];
      AppendNodes(init, e);
      DegreeSum(keys, init);
      SumOfEnds(keys, e);
      forall v
        ensures Degree(edges, v) == Degree(init, v) + EndsAt(e, v)
      {
        AppendDegree(init, e, v);
      }
      SumsAppend(keys, (v: string) => Degree(init, v), (v: string) => EndsAt(e, v), (v: string) => Degree(edges, v), init, e, EndCount);
    }
  }

  lemma {:induction false} NameCountSum(keys: set<string>, edges: seq<Edge>, name: Edge -> string)
    requires NamesIn(edges, name) <= keys
    ensures SumOver(keys, (n: string) => NameCount(edges, name, n)) == |edges|
  {
    if edges == [] {
      var zero := (n: string) => NameCount(edges, name, n);
      SumAdds(keys, zero, zero, zero);
    } else {
      var init, e := edges[..|edges| - 1], edges[|edges| - 1];
      assert edges == init + [e];
      NameCountSum(keys, init, name);
      var one := (n: string) => if n == name(e) then 1 else 0;
      SumOfIndicator(keys, one, name(e));
      forall n
        ensures NameCount(edges, name, n) == NameCount(init, name, n) + one(n)
      {
        AppendTotal(init, e, (x: Edge) => if name(x) == n then 1 else 0);
      }
      SumAdds(keys, (n: string) => NameCount(init, name, n), one, (n: string) => NameCount(edges, name, n));
    }
  }

  /**
   * Degrees sum to twice the two-ended edges plus the one-ended ones, class and origin counts each sum to
   * the number of edges, and the dead-end ratio lies between 0 and 1: times the number of nodes it is the
   * number of dead ends, and without nodes it is 0.
   */
  lemma DiagnosticsAddUp(edges: seq<Edge>)
    ensures var d := Describe(edges);
      && SumOver(Nodes(edges), (v: string) => Degree(edges, v)) == Total(edges, EndCount)
      && SumOver(d.classCounts.Keys, (n: string) => NameCount(edges, ClassOf, n)) == d.edgeCount
      && SumOver(d.originCounts.Keys, (n: string) => NameCount(edges, OriginOf, n)) == d.edgeCount
      && 0.0 <= d.deadEndRatio <= 1.0
      && d.deadEndRatio * d.nodeCount as real == d.deadEndNodeCount as real
      && (d.nodeCount == 0 ==> d.deadEndRatio == 0.0 && d.deadEndNodeCount == 0)
  {
    hide Ratio, Total, TotalLength, Components, Nodes, DeadEnds, SumOver;
    DeadEndsAreNodes(edges);
    DegreeSum(Nodes(edges), edges);
    NameCountSum(NamesIn(edges, ClassOf), edges, ClassOf);
    NameCountSum(NamesIn(edges, OriginOf), edges, OriginOf);
    assert Counts(edges, ClassOf).Keys == NamesIn(edges, ClassOf);
    assert Counts(edges, OriginOf).Keys == NamesIn(edges, OriginOf);
    RatioBound(|DeadEnds(edges)|, |Nodes(edges)|);
  }

  lemma DeadEndsAreNodes(edges: seq<Edge>)
    ensures |DeadEnds(edges)| <= |Nodes(edges)|
  {
    hide Nodes;
    Sorting.SubsetIsSmaller(DeadEnds(edges), Nodes(edges));
  }

  lemma RatioBound(part: nat, whole: nat)
    requires part <= whole
    ensures 0.0 <= Ratio(part, whole) <= 1.0 && Ratio(part, whole) * whole as real == part as real
    ensures whole == 0 ==> Ratio(part, whole) == 0.0
  {
  }

  // ----- What the parts of the diagnostics say about single edges -----

  /** The node is an end of the edge: it has a name, and an end of the edge carries it. */
  predicate IsEndOf(e: Edge, v: string) { v != "" && (e.source == Some(v) || e.target == Some(v)) }

  /** Two named nodes are the two ends of the edge, in either order. */
  predicate Spans(e: Edge, a: string, b: string) {
    a != "" && b != "" && ((e.source == Some(a) && e.target == Some(b)) || (e.source == Some(b) && e.target == Some(a)))
  }

  /** Nodes, neighbours and roads have names; the empty name is no node and no road. */
  lemma GraphIsNamed(edges: seq<Edge>)
    ensures forall v :: v in Nodes(edges) <==> exists e | e in edges :: IsEndOf(e, v)
    ensures forall a, b :: Adjacent(edges, a, b) <==> exists e | e in edges :: Spans(e, a, b)
    ensures forall id :: id in RoadIds(edges) <==> id != "" && exists e | e in edges :: e.roadId == id
    ensures forall v :: v in DeadEnds(edges) <==> v in Nodes(edges) && Degree(edges, v) == 1
  {
    hide Degree;
    forall e: Edge, v
      ensures v in Ends(e) <==> IsEndOf(e, v)
    {
    }
    forall e: Edge, a, b
      ensures Joins(e, a, b) <==> Spans(e, a, b)
    {
    }
    hide Ends, Joins, IsEndOf, Spans;
  }

  /** Degrees are sums over the edges: an edge adds one for each of its ends at the node, so two for a loop. */
  lemma DegreesAddUp(a: seq<Edge>, b: seq<Edge>, e: Edge, v: string)
    ensures Degree(a + b, v) == Degree(a, v) + Degree(b, v) && Degree([], v) == 0
    ensures Degree([e], v) == if !IsEndOf(e, v) then 0 else if e.source == e.target then 2 else 1
  {
    TotalSplits(a, b, (x: Edge) => EndsAt(x, v));
    AppendDegree([], e, v);
    assert [] + [e] == [e];
  }

  /** So are lengths: negative ones are counted as none. */
  lemma LengthsAddUp(a: seq<Edge>, b: seq<Edge>, e: Edge)
    ensures TotalLength(a + b) == TotalLength(a) + TotalLength(b) && TotalLength([]) == 0.0
    ensures e.lengthM >= 0.0 ==> TotalLength([e]) == e.lengthM
    ensures e.lengthM <= 0.0 ==> TotalLength([e]) == 0.0
  {
    LengthSplits(a, b);
    assert [e][..0] == [];
  }

  /** And so is how often a name occurs. */
  lemma NameCountsAddUp(a: seq<Edge>, b: seq<Edge>, e: Edge, name: Edge -> string, n: string)
    ensures NameCount(a + b, name, n) == NameCount(a, name, n) + NameCount(b, name, n) && NameCount([], name, n) == 0
    ensures NameCount([e], name, n) == if name(e) == n then 1 else 0
  {
    TotalSplits(a, b, (x: Edge) => if name(x) == n then 1 else 0);
    AppendTotal([], e, (x: Edge) => if name(x) == n then 1 else 0);
    assert [] + [e] == [e];
  }

  /** The counters hold exactly the names that occur, each with how often it does. */
  lemma CountersCount(edges: seq<Edge>)
    ensures var d := Describe(edges);
      && (forall n :: n in d.classCounts <==> exists e | e in edges :: e.roadClass == n)
      && (forall n :: n in d.originCounts <==> exists e | e in edges :: e.origin == n)
      && (forall n | n in d.classCounts :: d.classCounts[n] == NameCount(edges, ClassOf, n))
      && (forall n | n in d.originCounts :: d.originCounts[n] == NameCount(edges, OriginOf, n))
      && d.edgeCount == |edges| && d.roadCount == |RoadIds(edges)| && d.nodeCount == |Nodes(edges)|
      && d.componentCount == |Components(edges)| && d.deadEndNodeCount == |DeadEnds(edges)|
  {
  }
}
