/** Sorting and counting on sequences: what Python's `sorted` and `sum(... for ...)` are relied on for. */
module Sorting {
  import opened Prelude

  ghost predicate StrictOrder<T(!new)>(before: (T, T) -> bool) {
    && (forall a :: !before(a, a))
    && (forall a, b, c :: before(a, b) && before(b, c) ==> before(a, c))
  }

  /** Any two different elements of the sequence are ordered one way or the other. */
  ghost predicate TotalOn<T>(s: seq<T>, before: (T, T) -> bool) {
    forall x, y | x in s && y in s :: x == y || before(x, y) || before(y, x)
  }

  /** No element comes before one that precedes it. */
  ghost predicate Ascending<T>(s: seq<T>, before: (T, T) -> bool) {
    s == [] || ((forall y | y in s[1..] :: !before(y, s[0])) && Ascending(s[1..], before))
  }

  lemma {:induction false} AscendingAt<T>(s: seq<T>, before: (T, T) -> bool, i: nat, j: nat)
    requires Ascending(s, before) && i < j < |s|
    ensures !before(s[j], s[i])
  {
    if i == 0 {
      assert s[j] == s[1..][j - 1];
    } else {
      AscendingAt(s[1..], before, i - 1, j - 1);
    }
  }

  function Inserted<T>(x: T, s: seq<T>, before: (T, T) -> bool): seq<T> {
    if s == [] || !before(s[0], x) then [x] + s else [s[0]] + Inserted(x, s[1..], before)
  }

  /** The stable sort. */
  function Sorted<T>(s: seq<T>, before: (T, T) -> bool): seq<T> {
    if s == [] then [] else Inserted(s[0], Sorted(s[1..], before), before)
  }

  lemma {:induction false} InsertedPermutes<T>(x: T, s: seq<T>, before: (T, T) -> bool)
    ensures multiset(Inserted(x, s, before)) == multiset(s) + multiset{x}
  {
    if s != [] && before(s[0], x) {
      InsertedPermutes(x, s[1..], before);
      assert s == [s[0]] + s[1..];
    }
  }

  lemma {:induction false} SortedPermutes<T>(s: seq<T>, before: (T, T) -> bool)
    ensures multiset(Sorted(s, before)) == multiset(s)
    ensures |Sorted(s, before)| == |s|
    ensures forall x :: x in Sorted(s, before) <==> x in s
  {
    if s != [] {
      SortedPermutes(s[1..], before);
      InsertedPermutes(s[0], Sorted(s[1..], before), before);
      assert s == [s[0]] + s[1..];
    }
    SameElements(Sorted(s, before), s);
  }

  /** Equal multisets have equal sizes and elements. */
  lemma SameElements<T>(a: seq<T>, b: seq<T>)
    requires multiset(a) == multiset(b)
    ensures |a| == |b|
    ensures forall x :: x in a <==> x in b
  {
    assert |a| == |multiset(a)| && |b| == |multiset(b)|;
    forall x
      ensures x in a <==> x in b
    {
      assert x in a <==> x in multiset(a);
      assert x in b <==> x in multiset(b);
    }
  }

  /** Taking the same element out of two sequences leaves the same multiset. */
  lemma WithoutOne<T>(a: seq<T>, b: seq<T>, k: nat)
    requires a != [] && k < |b| && b[k] == a[0] && multiset(a) == multiset(b)
    ensures multiset(a[1..]) == multiset(b[..k] + b[k + 1..])
  {
    assert a == [a[0]] + a[1..];
    assert b == b[..k] + [b[k]] + b[k + 1..];
    assert multiset(a[1..]) == multiset(a) - multiset{a[0]};
  }

  lemma InsertedHas<T>(x: T, s: seq<T>, before: (T, T) -> bool)
    ensures forall y | y in Inserted(x, s, before) :: y == x || y in s
  {
    InsertedPermutes(x, s, before);
    SameElements(Inserted(x, s, before), s + [x]);
  }

  lemma {:induction false} InsertedAscends<T(!new)>(x: T, s: seq<T>, before: (T, T) -> bool)
    requires StrictOrder(before) && Ascending(s, before) && TotalOn([x] + s, before)
    ensures Ascending(Inserted(x, s, before), before)
  {
    if s == [] {
    } else if !before(s[0], x) {
      assert ([x] + s)[1..] == s;
      forall y | y in s
        ensures !before(y, x)
      {
        var all := [x] + s;
        assert x in all && s[0] in all && y in all;
        assert y == s[0] || y in s[1..];
      }
    } else {
      var rest := Inserted(x, s[1..], before);
      assert TotalOn([x] + s[1..], before) by {
        assert forall y | y in [x] + s[1..] :: y in [x] + s;
      }
      InsertedAscends(x, s[1..], before);
      InsertedHas(x, s[1..], before);
      forall y | y in rest
        ensures !before(y, s[0])
      {
        assert y == x || y in s[1..];
      }
      assert ([s[0]] + rest)[1..] == rest;
    }
  }

  lemma {:induction false} SortedAscends<T(!new)>(s: seq<T>, before: (T, T) -> bool)
    requires StrictOrder(before) && TotalOn(s, before)
    ensures Ascending(Sorted(s, before), before)
  {
    if s != [] {
      assert forall y | y in s[1..] :: y in s;
      SortedAscends(s[1..], before);
      SortedPermutes(s[1..], before);
      assert forall y | y in [s[0]] + Sorted(s[1..], before) :: y in s;
      InsertedAscends(s[0], Sorted(s[1..], before), before);
    }
  }

  /** An ascending arrangement of pairwise ordered elements is unique. */
  lemma {:induction false} AscendingIsUnique<T>(a: seq<T>, b: seq<T>, before: (T, T) -> bool)
    requires multiset(a) == multiset(b)
    requires Ascending(a, before) && Ascending(b, before) && TotalOn(a, before)
    ensures a == b
  {
    SameElements(a, b);
    if a != [] {
      assert a[0] == b[0] by {
        assert a[0] in b && b[0] in a;
      }
      WithoutOne(a, b, 0);
      assert b[..0] + b[0 + 1..] == b[1..];
      AscendingIsUnique(a[1..], b[1..], before);
    }
  }

  /** Sorting forgets the order of its input, and nothing else. */
  lemma SortedIsCanonical<T(!new)>(a: seq<T>, b: seq<T>, before: (T, T) -> bool)
    requires StrictOrder(before) && TotalOn(a, before) && TotalOn(b, before)
    ensures Sorted(a, before) == Sorted(b, before) <==> multiset(a) == multiset(b)
  {
    SortedPermutes(a, before);
    SortedPermutes(b, before);
    SortedAscends(a, before);
    SortedAscends(b, before);
    if multiset(a) == multiset(b) {
      assert TotalOn(Sorted(a, before), before);
      AscendingIsUnique(Sorted(a, before), Sorted(b, before), before);
    }
  }

  // ----- Distinct elements -----

  lemma {:induction false} DistinctMeansOnce<T>(s: seq<T>)
    ensures Distinct(s) <==> forall x | x in s :: multiset(s)[x] == 1
  {
    if s != [] {
      var rest := s[1..];
      DistinctMeansOnce(rest);
      assert s == [s[0]] + rest;
      if Distinct(s) {
        assert forall i, j | 0 <= i < j < |rest| :: rest[i] == s[i + 1] && rest[j] == s[j + 1];
        assert s[0] !in rest;
      } else if Distinct(rest) {
        assert s[0] in rest;
        assert multiset(s)[s[0]] == 2;
      } else {
        var x :| x in rest && multiset(rest)[x] != 1;
        assert multiset(s)[x] >= multiset(rest)[x] >= 1;
      }
    }
  }

  /** Sorting distinct, pairwise ordered elements puts them in strictly ascending order. */
  lemma SortedAscendsStrictly<T(!new)>(s: seq<T>, before: (T, T) -> bool)
    requires StrictOrder(before) && TotalOn(s, before) && Distinct(s)
    ensures forall i, j | 0 <= i < j < |Sorted(s, before)| :: before(Sorted(s, before)[i], Sorted(s, before)[j])
  {
    var r := Sorted(s, before);
    SortedPermutes(s, before);
    SortedAscends(s, before);
    DistinctMeansOnce(s);
    DistinctMeansOnce(r);
    forall i, j | 0 <= i < j < |r|
      ensures before(r[i], r[j])
    {
      AscendingAt(r, before, i, j);
      assert r[i] in s && r[j] in s;
    }
  }

  lemma {:induction false} DistinctCardinality<T>(s: seq<T>)
    requires Distinct(s)
    ensures |set x | x in s| == |s|
  {
    if s != [] {
      var init := s[..|s| - 1];
      DistinctCardinality(init);
      assert (set x | x in s) == (set x | x in init) + {s[|s| - 1]};
      assert s[|s| - 1] !in init;
    }
  }

  // ----- Counting -----

  function Count<T>(s: seq<T>, p: T -> bool): nat {
    if s == [] then 0 else (if p(s[0]) then 1 else 0) + Count(s[1..], p)
  }

  lemma {:induction false} CountConcat<T>(a: seq<T>, b: seq<T>, p: T -> bool)
    ensures Count(a + b, p) == Count(a, p) + Count(b, p)
  {
    if a == [] {
      assert a + b == b;
    } else {
      CountConcat(a[1..], b, p);
      assert (a + b)[1..] == a[1..] + b;
    }
  }

  lemma {:induction false} CountPermutes<T>(a: seq<T>, b: seq<T>, p: T -> bool)
    requires multiset(a) == multiset(b)
    ensures Count(a, p) == Count(b, p)
  {
    SameElements(a, b);
    if a != [] {
      assert a[0] in b;
      var k :| 0 <= k < |b| && b[k] == a[0];
      WithoutOne(a, b, k);
      CountPermutes(a[1..], b[..k] + b[k + 1..], p);
      CountConcat(b[..k], b[k + 1..], p);
      CountConcat(b[..k], [b[k]] + b[k + 1..], p);
      assert b == b[..k] + ([b[k]] + b[k + 1..]);
      assert ([b[k]] + b[k + 1..])[1..] == b[k + 1..];
    }
  }

  /** Counting with a predicate that holds nowhere, everywhere, or less often. */
  lemma {:induction false} CountBounds<T>(s: seq<T>, p: T -> bool, q: T -> bool)
    requires forall x | x in s :: p(x) ==> q(x)
    ensures Count(s, p) <= Count(s, q) <= |s|
    ensures (exists x | x in s :: q(x) && !p(x)) ==> Count(s, p) < Count(s, q)
    ensures (forall x | x in s :: !p(x)) ==> Count(s, p) == 0
    ensures (forall x | x in s :: p(x)) ==> Count(s, p) == |s|
  {
    if s != [] {
      CountBounds(s[1..], p, q);
      assert s == [s[0]] + s[1..];
    }
  }

  lemma SubsetIsSmaller<T>(a: set<T>, b: set<T>)
    requires a <= b
    ensures |a| <= |b|
  {
    assert b == a + (b - a);
  }
  function Mapped<T, U>(s: seq<T>, f: T -> U): (r: seq<U>)
    ensures |r| == |s|
  {
    seq(|s|, i requires 0 <= i < |s| => f(s[i]))
  }

  /** Mapping two permutations gives two permutations. */
  lemma {:induction false} MappedPermutes<T, U>(a: seq<T>, b: seq<T>, f: T -> U)
    requires multiset(a) == multiset(b)
    ensures multiset(Mapped(a, f)) == multiset(Mapped(b, f))
  {
    if a == [] {
      assert |multiset(b)| == 0;
    } else {
      assert a[0] in multiset(b);
      var k :| 0 <= k < |b| && b[k] == a[0];
      WithoutOne(a, b, k);
      MappedPermutes(a[1..], b[..k] + b[k + 1..], f);
      assert Mapped(a, f) == [f(a[0])] + Mapped(a[1..], f);
      assert Mapped(b, f) == Mapped(b[..k], f) + [f(b[k])] + Mapped(b[k + 1..], f);
      assert Mapped(b[..k] + b[k + 1..], f) == Mapped(b[..k], f) + Mapped(b[k + 1..], f);
    }
  }
}
