/** The road graph as a mathematical object: nodes, connection by edges, degrees, and totals over edges. */
module RoadGraph {
  import opened Prelude

  /** One generated road segment; an endpoint may be missing. */
  datatype Edge = Edge(roadId: string, source: Option<string>, target: Option<string>, lengthM: real, roadClass: string, origin: string)

  /** An endpoint that names a node: neither missing nor empty. */
  predicate Present(node: Option<string>) {
    node.Some? && node.value != ""
  }

  predicate TwoEnded(e: Edge) { Present(e.source) && Present(e.target) }

  function Named(node: Option<string>): set<string> {
    if Present(node) then {node.value} else {}
  }

  function Ends(e: Edge): set<string> { Named(e.source) + Named(e.target) }

  ghost function Nodes(edges: seq<Edge>): set<string> {
    set e, v | e in edges && v in Ends(e) :: v
  }

  predicate Joins(e: Edge, a: string, b: string) {
    TwoEnded(e) && ((e.source.value == a && e.target.value == b) || (e.source.value == b && e.target.value == a))
  }

  ghost predicate Adjacent(edges: seq<Edge>, a: string, b: string) {
    exists e | e in edges :: Joins(e, a, b)
  }

  ghost predicate IsPath(edges: seq<Edge>, p: seq<string>) {
    p != [] && forall i | 0 <= i < |p| - 1 :: Adjacent(edges, p[i], p[i + 1])
  }

  ghost predicate Links(edges: seq<Edge>, p: seq<string>, a: string, b: string) {
    IsPath(edges, p) && p[0] == a && p[|p| - 1] == b
  }

  /** Some path of two-ended edges leads from `a` to `b`. */
  ghost predicate Connected(edges: seq<Edge>, a: string, b: string) {
    exists p :: Links(edges, p, a, b)
  }

  lemma ConnectedReflexive(edges: seq<Edge>, a: string)
    ensures Connected(edges, a, a)
  {
    assert Links(edges, [a], a, a);
  }

  lemma ConnectedByEdge(edges: seq<Edge>, a: string, b: string)
    requires Adjacent(edges, a, b)
    ensures Connected(edges, a, b)
  {
    assert Links(edges, [a, b], a, b);
  }

  function Reversed(p: seq<string>): seq<string> {
    seq(|p|, i requires 0 <= i < |p| => p[|p| - 1 - i])
  }

  lemma ConnectedSymmetric(edges: seq<Edge>, a: string, b: string)
    requires Connected(edges, a, b)
    ensures Connected(edges, b, a)
  {
    var p :| Links(edges, p, a, b);
    var q := Reversed(p);
    forall i | 0 <= i < |q| - 1
      ensures Adjacent(edges, q[i], q[i + 1])
    {
      var j := |p| - 2 - i;
      assert Adjacent(edges, p[j], p[j + 1]);
      var e :| e in edges && Joins(e, p[j], p[j + 1]);
      assert Joins(e, q[i], q[i + 1]);
    }
    assert Links(edges, q, b, a);
  }

  lemma ConnectedTransitive(edges: seq<Edge>, a: string, b: string, c: string)
    requires Connected(edges, a, b) && Connected(edges, b, c)
    ensures Connected(edges, a, c)
  {
    var p :| Links(edges, p, a, b);
    var q :| Links(edges, q, b, c);
    var r := p + q[1..];
    forall i | 0 <= i < |r| - 1
      ensures Adjacent(edges, r[i], r[i + 1])
    {
      if i < |p| - 1 {
        assert Adjacent(edges, p[i], p[i + 1]);
      } else {
        assert Adjacent(edges, q[i - |p| + 1], q[i - |p| + 2]);
      }
    }
    assert Links(edges, r, a, c);
  }

  /** Connection depends only on which pairs are adjacent, and grows with them. */
  lemma ConnectedGrows(edges: seq<Edge>, more: seq<Edge>, a: string, b: string)
    requires forall x, y :: Adjacent(edges, x, y) ==> Adjacent(more, x, y)
    requires Connected(edges, a, b)
    ensures Connected(more, a, b)
  {
    var p :| Links(edges, p, a, b);
    assert Links(more, p, a, b);
  }

  /** The nodes connected to `v`. */
  ghost function Component(edges: seq<Edge>, v: string): set<string> {
    set w | w in Nodes(edges) && Connected(edges, v, w)
  }

  ghost function Components(edges: seq<Edge>): set<set<string>> {
    set v | v in Nodes(edges) :: Component(edges, v)
  }

  // ----- Totals over edges -----

  /** How many ends of `e` are at `v`: a loop has two. */
  function EndsAt(e: Edge, v: string): nat {
    (if Present(e.source) && e.source.value == v then 1 else 0) + (if Present(e.target) && e.target.value == v then 1 else 0)
  }

  function Total(edges: seq<Edge>, f: Edge -> int): int {
    if edges == [] then 0 else Total(edges[..|edges| - 1], f) + f(edges[|edges| - 1])
  }

  function Degree(edges: seq<Edge>, v: string): int {
    Total(edges, (e: Edge) => EndsAt(e, v))
  }

  function TotalLength(edges: seq<Edge>): real {
    if edges == [] then 0.0
    else
      var length := edges[|edges| - 1].lengthM;
      TotalLength(edges[..|edges| - 1]) + (if length > 0.0 then length else 0.0)
  }

  function ClassOf(e: Edge): string { e.roadClass }

  function OriginOf(e: Edge): string { e.origin }

  /** Edges whose class (or origin) is `n`. */
  function NameCount(edges: seq<Edge>, name: Edge -> string, n: string): int {
    Total(edges, (e: Edge) => if name(e) == n then 1 else 0)
  }

  lemma {:induction false} TotalSplits(a: seq<Edge>, b: seq<Edge>, f: Edge -> int)
    ensures Total(a + b, f) == Total(a, f) + Total(b, f)
  {
    if b == [] {
      assert a + b == a;
    } else {
      assert (a + b)[..|a + b| - 1] == a + b[..|b| - 1];
      TotalSplits(a, b[..|b| - 1], f);
    }
  }

  lemma {:induction false} LengthSplits(a: seq<Edge>, b: seq<Edge>)
    ensures TotalLength(a + b) == TotalLength(a) + TotalLength(b)
  {
    if b == [] {
      assert a + b == a;
    } else {
      assert (a + b)[..|a + b| - 1] == a + b[..|b| - 1];
      LengthSplits(a, b[..|b| - 1]);
    }
  }

  /** Take one edge out of the middle. */
  function Without(edges: seq<Edge>, i: nat): (rest: seq<Edge>)
    requires i < |edges|
    ensures |rest| == |edges| - 1
  {
    edges[..i] + edges[i + 1..]
  }

  lemma TotalWithout(edges: seq<Edge>, i: nat, f: Edge -> int)
    requires i < |edges|
    ensures Total(edges, f) == Total(Without(edges, i), f) + f(edges[i])
  {
    var upTo := edges[..i + 1];
    assert edges == upTo + edges[i + 1..] && upTo[..i] == edges[..i];
    TotalSplits(upTo, edges[i + 1..], f);
    TotalSplits(edges[..i], edges[i + 1..], f);
  }

  lemma LengthAround(a: seq<Edge>, e: Edge, b: seq<Edge>)
    ensures TotalLength(a + [e] + b) == TotalLength(a + b) + TotalLength([e])
  {
    hide TotalLength;
    LengthSplits(a + [e], b);
    LengthSplits(a, [e]);
    LengthSplits(a, b);
  }

  lemma LengthWithout(edges: seq<Edge>, i: nat)
    requires i < |edges|
    ensures TotalLength(edges) == TotalLength(Without(edges, i)) + TotalLength([edges[i]])
  {
    hide TotalLength;
    LengthAround(edges[..i], edges[i], edges[i + 1..]);
    assert edges == edges[..i] + [edges[i]] + edges[i + 1..];
  }

  lemma MultisetWithout(edges: seq<Edge>, i: nat)
    requires i < |edges|
    ensures multiset(Without(edges, i)) == multiset(edges) - multiset{edges[i]}
  {
    assert edges == edges[..i] + [edges[i]] + edges[i + 1..];
  }

  /** Totals do not depend on the order of the edges. */
  lemma {:induction false} TotalsPermute(a: seq<Edge>, b: seq<Edge>, f: Edge -> int)
    requires multiset(a) == multiset(b)
    ensures Total(a, f) == Total(b, f) && TotalLength(a) == TotalLength(b)
    decreases |a|
  {
    if a == [] {
      assert |multiset(b)| == 0;
    } else {
      var last := |a| - 1;
      assert a[last] in multiset(b);
      var j :| 0 <= j < |b| && b[j] == a[last];
      TotalWithout(a, last, f);
      TotalWithout(b, j, f);
      LengthWithout(a, last);
      LengthWithout(b, j);
      MultisetWithout(a, last);
      MultisetWithout(b, j);
      hide Total, TotalLength, Without;
      TotalsPermute(Without(a, last), Without(b, j), f);
    }
  }
}
