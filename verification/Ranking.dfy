/**
 * Competition ranking: a sort by (value, position) and a scan that remembers the previous value, against
 * the plain meaning of a rank, one more than the number of strictly better values.
 */
module Ranking {
  import opened Prelude
  import opened Sorting

  datatype Direction = HigherIsBetter | LowerIsBetter | Target | Descriptive
  {
    predicate Rankable() { HigherIsBetter? || LowerIsBetter? }

    predicate Better(a: real, b: real) { if HigherIsBetter? then a > b else a < b }

    function Opposite(): Direction {
      if HigherIsBetter? then LowerIsBetter else if LowerIsBetter? then HigherIsBetter else this
    }
  }

  // ----- What a rank means -----

  function Beats(d: Direction, v: real): Option<real> -> bool {
    (x: Option<real>) => x.Some? && d.Better(x.value, v)
  }

  /** How many of the values that are present are strictly better than `v`. */
  function BetterThan(values: seq<Option<real>>, d: Direction, v: real): nat {
    Count(values, Beats(d, v))
  }

  function RankOf(values: seq<Option<real>>, d: Direction, i: nat): Option<nat>
    requires i < |values|
  {
    if !d.Rankable() || values[i].None? then None else Some(1 + BetterThan(values, d, values[i].value))
  }

  /** Exactly the present values are ranked, and a smaller rank is exactly a better value: equal values tie. */
  lemma RanksOrderValues(values: seq<Option<real>>, d: Direction, i: nat, j: nat)
    requires d.Rankable() && i < |values| && j < |values|
    ensures RankOf(values, d, i).Some? <==> values[i].Some?
    ensures values[i].Some? && values[j].Some? ==>
      && 1 <= RankOf(values, d, i).value <= Count(values, (x: Option<real>) => x.Some?)
      && (RankOf(values, d, i).value < RankOf(values, d, j).value <==> d.Better(values[i].value, values[j].value))
      && (RankOf(values, d, i) == RankOf(values, d, j) <==> values[i] == values[j])
  {
    hide Count;
    if values[i].Some? && values[j].Some? {
      var vi, vj := values[i].value, values[j].value;
      CountBounds(values, Beats(d, vi), (x: Option<real>) => x.Some?);
      assert values[i] in values && values[j] in values;
      if d.Better(vi, vj) {
        CountBounds(values, Beats(d, vi), Beats(d, vj));
      } else if d.Better(vj, vi) {
        CountBounds(values, Beats(d, vj), Beats(d, vi));
      }
    }
  }

  /** Better is more, or less, as the direction has it; in the other directions nothing is ranked. */
  lemma RanksFollowDirection(values: seq<Option<real>>, d: Direction, i: nat, j: nat)
    requires i < |values| && j < |values| && values[i].Some? && values[j].Some?
    ensures d == Target || d == Descriptive ==> RankOf(values, d, i) == None
    ensures d == HigherIsBetter ==> (RankOf(values, d, i).value < RankOf(values, d, j).value <==> values[i].value > values[j].value)
    ensures d == LowerIsBetter ==> (RankOf(values, d, i).value < RankOf(values, d, j).value <==> values[i].value < values[j].value)
    ensures d.Rankable() && (forall v | v in values && v.Some? :: !d.Better(v.value, values[i].value)) ==> RankOf(values, d, i) == Some(1)
  {
    if d.Rankable() {
      RanksOrderValues(values, d, i, j);
      if forall v | v in values && v.Some? :: !d.Better(v.value, values[i].value) {
        CountBounds(values, Beats(d, values[i].value), Beats(d, values[i].value));
      }
    }
  }

  /** Permuting the values permutes the ranks: a value keeps its rank wherever it moves. */
  lemma RanksPermute(values: seq<Option<real>>, shuffled: seq<Option<real>>, d: Direction, i: nat, j: nat)
    requires multiset(values) == multiset(shuffled)
    requires i < |values| && j < |shuffled| && values[i] == shuffled[j]
    ensures RankOf(values, d, i) == RankOf(shuffled, d, j)
  {
    if values[i].Some? {
      CountPermutes(values, shuffled, Beats(d, values[i].value));
    }
  }

  function Negated(values: seq<Option<real>>): seq<Option<real>> {
    if values == [] then []
    else [if values[0].Some? then Some(-values[0].value) else None] + Negated(values[1..])
  }

  lemma {:induction false} NegationReverses(values: seq<Option<real>>, d: Direction, v: real)
    requires d.Rankable()
    ensures BetterThan(Negated(values), d.Opposite(), -v) == BetterThan(values, d, v)
  {
    if values != [] {
      NegationReverses(values[1..], d, v);
      assert Negated(values)[1..] == Negated(values[1..]);
    }
  }

  lemma {:induction false} NegatedAt(values: seq<Option<real>>, i: nat)
    requires i < |values|
    ensures |Negated(values)| == |values|
    ensures Negated(values)[i] == if values[i].Some? then Some(-values[i].value) else None
  {
    if i > 0 {
      NegatedAt(values[1..], i - 1);
    } else if |values| > 1 {
      NegatedAt(values[1..], 0);
    }
  }

  /** Ranking the negated values the other way round gives the same ranks. */
  lemma NegationKeepsRanks(values: seq<Option<real>>, d: Direction, i: nat)
    requires i < |values|
    ensures |Negated(values)| == |values| && RankOf(Negated(values), d.Opposite(), i) == RankOf(values, d, i)
  {
    NegatedAt(values, i);
    if d.Rankable() && values[i].Some? {
      NegationReverses(values, d, values[i].value);
    }
  }

  // ----- How it is computed -----

  /** A present value with its position. */
  datatype Entry = Entry(index: nat, value: real)

  /** The sort key: the value, better first, and then the position. */
  function Before(d: Direction): (Entry, Entry) -> bool {
    (a: Entry, b: Entry) => d.Better(a.value, b.value) || (a.value == b.value && a.index < b.index)
  }

  function EntryBeats(d: Direction, v: real): Entry -> bool { (e: Entry) => d.Better(e.value, v) }

  lemma BeforeIsStrictOrder(d: Direction, s: seq<Entry>)
    ensures StrictOrder(Before(d)) && TotalOn(s, Before(d))
  {
  }

  /** The entries of `values[..n]`, in their order. */
  ghost function Present(values: seq<Option<real>>, n: nat): seq<Entry>
    requires n <= |values|
  {
    if n == 0 then []
    else Present(values, n - 1) + (if values[n - 1].Some? then [Entry(n - 1, values[n - 1].value)] else [])
  }

  lemma {:induction false} PresentHolds(values: seq<Option<real>>, n: nat)
    requires n <= |values|
    ensures forall e :: e in Present(values, n) <==> e.index < n && values[e.index] == Some(e.value)
  {
    if n > 0 {
      PresentHolds(values, n - 1);
    }
  }

  lemma {:induction false} PresentCounts(values: seq<Option<real>>, n: nat, d: Direction, v: real)
    requires n <= |values|
    ensures Count(Present(values, n), EntryBeats(d, v)) == BetterThan(values[..n], d, v)
  {
    if n > 0 {
      PresentCounts(values, n - 1, d, v);
      assert values[..n] == values[..n - 1] + [values[n - 1]];
      CountConcat(values[..n - 1], [values[n - 1]], Beats(d, v));
      CountConcat(Present(values, n - 1), if values[n - 1].Some? then [Entry(n - 1, values[n - 1].value)] else [], EntryBeats(d, v));
    }
  }

  /** In sorted order, the entries strictly better than the first of its value are exactly those before it. */
  lemma CountsAtFirst(s: seq<Entry>, d: Direction, p: nat)
    requires d.Rankable() && Ascending(s, Before(d)) && p < |s|
    requires p > 0 ==> s[p - 1].value != s[p].value
    ensures Count(s, EntryBeats(d, s[p].value)) == p
  {
    hide Count, Ascending;
    var beats := EntryBeats(d, s[p].value);
    forall e | e in s[..p]
      ensures beats(e)
    {
      var q :| 0 <= q < p && s[q] == e;
      AscendingAt(s, Before(d), q, p);
      AscendingAt(s, Before(d), p - 1, p);
      if q < p - 1 {
        AscendingAt(s, Before(d), q, p - 1);
      }
    }
    forall e | e in s[p..]
      ensures !beats(e)
    {
      var q :| p <= q < |s| && s[q] == e;
      if p < q {
        AscendingAt(s, Before(d), p, q);
      }
    }
    CountBounds(s[..p], beats, beats);
    CountBounds(s[p..], beats, beats);
    CountConcat(s[..p], s[p..], beats);
    assert s == s[..p] + s[p..];
  }

  /** What the scan needs to know about the sorted entries. */
  lemma SortedEntries(values: seq<Option<real>>, d: Direction, s: seq<Entry>)
    requires d.Rankable() && s == Sorted(Present(values, |values|), Before(d))
    ensures Ascending(s, Before(d))
    ensures forall e :: e in s <==> e.index < |values| && values[e.index] == Some(e.value)
    ensures forall v :: Count(s, EntryBeats(d, v)) == BetterThan(values, d, v)
  {
    var available := Present(values, |values|);
    BeforeIsStrictOrder(d, available);
    SortedAscends(available, Before(d));
    SortedPermutes(available, Before(d));
    PresentHolds(values, |values|);
    forall v
      ensures Count(s, EntryBeats(d, v)) == BetterThan(values, d, v)
    {
      CountPermutes(s, available, EntryBeats(d, v));
      PresentCounts(values, |values|, d, v);
      assert values[..|values|] == values;
    }
  }

  method Ranks(values: seq<Option<real>>, d: Direction) returns (ranks: seq<Option<nat>>)
    ensures |ranks| == |values| && forall i | 0 <= i < |values| :: ranks[i] == RankOf(values, d, i)
  {
    hide BetterThan, Before, EntryBeats, Count, Ascending, Sorted;
    ranks := seq(|values|, _ => None);
    if !d.Rankable() {
      return;
    }
    var available: seq<Entry> := [];
    for index := 0 to |values|
      invariant available == Present(values, index)
    {
      if values[index].Some? {
        available := available + [Entry(index, values[index].value)];
      }
    }
    available := Sorted(available, Before(d));
    SortedEntries(values, d, available);
    var previous: Option<real> := None;
    var rank := 0;
    for position := 0 to |available|
      invariant |ranks| == |values|
      invariant previous == if position == 0 then None else Some(available[position - 1].value)
      invariant position > 0 ==> rank == 1 + BetterThan(values, d, available[position - 1].value)
      invariant forall i | 0 <= i < |values| :: ranks[i] == None || ranks[i] == RankOf(values, d, i)
      invariant forall q | 0 <= q < position :: available[q].index < |values| && ranks[available[q].index].Some?
    {
      var entry := available[position];
      assert entry in available;
      if previous.None? || entry.value != previous.value {
        CountsAtFirst(available, d, position);
        rank := position + 1;
      }
      ranks := ranks[entry.index := Some(rank)];
      previous := Some(entry.value);
    }
    forall i | 0 <= i < |values|
      ensures ranks[i] == RankOf(values, d, i)
    {
      if values[i].Some? {
        assert Entry(i, values[i].value) in available;
      }
    }
  }
}
