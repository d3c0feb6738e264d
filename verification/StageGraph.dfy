/** The dependency graph of the registered stages: cycles, dependency orders, and the canonical one. */
module StageGraph {
  import opened Ordering
  import opened Prelude

  /** For each stage the names of the stages it depends on. */
  type Graph = map<string, seq<string>>

  /** Every dependency is a registered stage. */
  predicate Closed(g: Graph) { forall n, d | n in g && d in g[n] :: d in g }

  /** Each element of the path depends on the next one. */
  predicate IsPath(g: Graph, p: seq<string>) {
    p != [] && (forall i | 0 <= i < |p| :: p[i] in g) && forall i | 0 <= i < |p| - 1 :: p[i + 1] in g[p[i]]
  }

  predicate IsCycle(g: Graph, p: seq<string>) { IsPath(g, p) && |p| > 1 && p[0] == p[|p| - 1] }

  /** All that `n` depends on directly is among `done`. */
  predicate Ready(g: Graph, done: seq<string>, n: string) {
    n in g && n !in done && forall d | d in g[n] :: d in done
  }

  /** Stages of the graph, each after everything it depends on, and none twice. */
  predicate Respects(g: Graph, order: seq<string>) {
    forall i | 0 <= i < |order| :: Ready(g, order[..i], order[i])
  }

  predicate Covers(g: Graph, order: seq<string>) { forall n | n in g :: n in order }

  predicate IsOrder(g: Graph, order: seq<string>) { Respects(g, order) && Covers(g, order) }

  lemma RespectsAppends(g: Graph, order: seq<string>, n: string)
    requires Respects(g, order) && Ready(g, order, n)
    ensures Respects(g, order + [n])
  {
    var more := order + [n];
    forall i | 0 <= i < |more|
      ensures Ready(g, more[..i], more[i])
    {
      assert more[..i] == order[..i];
      assert order[..|order|] == order;
    }
  }

  lemma RespectsIsDistinct(g: Graph, order: seq<string>)
    requires Respects(g, order)
    ensures Distinct(order)
  {
    forall i, j | 0 <= i < j < |order|
      ensures order[i] != order[j]
    {
      assert order[i] == order[..j][i];
      assert Ready(g, order[..j], order[j]);
    }
  }

  /** Along a path, an order goes backwards. */
  lemma {:induction false} PathGoesBack(g: Graph, order: seq<string>, p: seq<string>, i: nat)
    requires Respects(g, order) && IsPath(g, p) && i < |order| && order[i] == p[0]
    ensures exists k :: 0 <= k <= i && order[k] == p[|p| - 1] && (|p| > 1 ==> k < i)
  {
    if |p| > 1 {
      assert Ready(g, order[..i], order[i]);
      assert p[1] in order[..i];
      var j :| 0 <= j < i && order[..i][j] == p[1];
      var rest := p[1..];
      forall k | 0 <= k < |rest| - 1
        ensures rest[k + 1] in g[rest[k]]
      {
        assert rest[k] == p[k + 1] && rest[k + 1] == p[k + 2];
      }
      PathGoesBack(g, order, rest, j);
      var k :| 0 <= k <= j && order[k] == rest[|rest| - 1];
    }
  }

  /** A graph that can be ordered has no cycle: a path of at least one step ends elsewhere than it began. */
  lemma OrderExcludesCycle(g: Graph, order: seq<string>, p: seq<string>)
    requires IsOrder(g, order) && IsPath(g, p) && |p| > 1
    ensures !IsCycle(g, p)
  {
    assert p[0] in order;
    var i :| 0 <= i < |order| && order[i] == p[0];
    PathGoesBack(g, order, p, i);
    var k :| 0 <= k < i && order[k] == p[|p| - 1];
    RespectsIsDistinct(g, order);
  }

  ghost predicate Orderable(g: Graph) { exists order :: IsOrder(g, order) }

  lemma CyclicIsNotOrderable(g: Graph, p: seq<string>)
    requires IsCycle(g, p)
    ensures !Orderable(g)
  {
    forall order
      ensures !IsOrder(g, order)
    {
      if IsOrder(g, order) {
        OrderExcludesCycle(g, order, p);
      }
    }
  }

  /** While stages are left in a graph that can be ordered, one of them is ready. */
  lemma SomeStageIsReady(g: Graph, order: seq<string>, done: seq<string>)
    requires IsOrder(g, order) && exists n :: n in g && n !in done
    ensures exists n :: Ready(g, done, n)
  {
    var n :| n in g && n !in done;
    var i :| 0 <= i < |order| && order[i] == n;
    var first := 0;
    while order[first] in done
      invariant 0 <= first <= i
      invariant forall k | 0 <= k < first :: order[k] in done
      decreases i - first
    {
      first := first + 1;
    }
    assert Ready(g, order[..first], order[first]);
    assert Ready(g, done, order[first]) by {
      forall d | d in g[order[first]]
        ensures d in done
      {
        var k :| 0 <= k < first && order[..first][k] == d;
      }
    }
  }

  // ----- The canonical order -----

  /** The least name of those that could come next. */
  ghost predicate IsNext(g: Graph, done: seq<string>, n: string) {
    Ready(g, done, n) && forall m | Ready(g, done, m) :: m == n || Less(n, m)
  }

  ghost predicate Canonical(g: Graph, order: seq<string>) {
    forall i | 0 <= i < |order| :: IsNext(g, order[..i], order[i])
  }

  lemma CanonicalAppends(g: Graph, order: seq<string>, n: string)
    requires Canonical(g, order) && IsNext(g, order, n)
    ensures Canonical(g, order + [n])
  {
    var more := order + [n];
    forall i | 0 <= i < |more|
      ensures IsNext(g, more[..i], more[i])
    {
      assert more[..i] == order[..i];
      assert order[..|order|] == order;
    }
  }

  lemma CanonicalRespects(g: Graph, order: seq<string>)
    requires Canonical(g, order)
    ensures Respects(g, order)
  {
    forall i | 0 <= i < |order|
      ensures Ready(g, order[..i], order[i])
    {
      assert IsNext(g, order[..i], order[i]);
    }
  }

  /** An order that covers the graph cannot go on. */
  lemma CoveringIsComplete(g: Graph, order: seq<string>, longer: seq<string>)
    requires Covers(g, order) && Respects(g, longer) && |order| <= |longer| && longer[..|order|] == order
    ensures order == longer
  {
  }

  /**
   * The canonical order is the first of all dependency orders, compared name by name: any other one
   * agrees with it up to some point and has a later name there.
   */
  lemma CanonicalIsFirst(g: Graph, order: seq<string>, other: seq<string>)
    requires Canonical(g, order) && Covers(g, order) && IsOrder(g, other)
    ensures order == other || exists k ::
      0 <= k < |order| && k < |other| && order[..k] == other[..k] && Less(order[k], other[k])
  {
    CanonicalRespects(g, order);
    var k := 0;
    while k < |order| && k < |other| && order[k] == other[k]
      invariant 0 <= k <= |order| && k <= |other|
      invariant order[..k] == other[..k]
    {
      k := k + 1;
    }
    if k < |order| && k < |other| {
      assert Ready(g, other[..k], other[k]);
      assert IsNext(g, order[..k], order[k]);
    } else if |order| <= |other| {
      CoveringIsComplete(g, order, other);
    } else {
      CoveringIsComplete(g, other, order);
    }
  }

  lemma LessAsymmetric(a: string, b: string)
    ensures !(Less(a, b) && Less(b, a))
  {
    if Less(a, b) && Less(b, a) {
      LessTransitive(a, b, a);
    }
    LessIrreflexive(a);
  }

  /** There is only one canonical order. */
  lemma CanonicalIsUnique(g: Graph, a: seq<string>, b: seq<string>)
    requires Canonical(g, a) && Covers(g, a) && Canonical(g, b) && Covers(g, b)
    ensures a == b
  {
    CanonicalRespects(g, a);
    CanonicalRespects(g, b);
    var k := 0;
    while k < |a| && k < |b|
      invariant 0 <= k <= |a| && k <= |b|
      invariant a[..k] == b[..k]
    {
      assert IsNext(g, a[..k], a[k]) && IsNext(g, b[..k], b[k]);
      LessAsymmetric(a[k], b[k]);
      k := k + 1;
    }
    if |a| <= |b| {
      CoveringIsComplete(g, a, b);
    } else {
      CoveringIsComplete(g, b, a);
    }
  }
}
