/**
 * What consecutive calls of the bucket scan cover: everything, within a bound, as long as none of them leaves
 * a gap; and when they leave gaps, what lies in the gap is never seen. Whether a call leaves a gap is decided
 * by the listing, the cursor and the limits.
 */
module S3GcCoverage {
  import opened Arithmetic
  import opened Prelude
  import opened Artifacts
  import opened Sorting
  import opened Ordering
  import opened S3GcScan
  import opened S3GcFill

  // ----- One call -----

  /** The objects one call can examine. */
  function Window(listing: Listing, cursor: Cursor, limits: Limits): seq<Entry> {
    Budgeted(Ahead(listing, cursor, 0), limits.maxScan)
  }

  /**
   * A call examines the objects ahead of the cursor, as many as it takes for `max_results` different stale
   * keys, or all that its budget allows when there are fewer; and the result is full exactly when there are not.
   */
  lemma CallExamines(prefix: string, listing: Listing, cursor: Cursor, limits: Limits)
    requires ValidListing(listing)
    ensures var out := Call(prefix, listing, cursor, limits);
            var window := Window(listing, cursor, limits);
      && IsFill(prefix, window, limits, |out.examined|) && out.examined == window[..|out.examined|]
      && |out.candidates| <= limits.maxResults
      && (|out.candidates| == limits.maxResults <==> |StaleKeys(prefix, window, limits)| >= limits.maxResults)
  {
    hide FillsAfter, FoundIn, Scan, Ahead;
    ScanFills(prefix, listing, cursor, 0, [], 0, limits);
    FillCounts(prefix, Window(listing, cursor, limits), limits);
  }

  /** The result fills up before the end of the last page of a listing that the budget covers. */
  ghost predicate LeavesGap(prefix: string, listing: Listing, cursor: Cursor, limits: Limits) {
    var window := Window(listing, cursor, limits);
    && |StaleKeys(prefix, window, limits)| >= limits.maxResults
    && exists n :: IsFill(prefix, window, limits, n) && StopsInsideLastPage(listing, cursor, limits.maxScan, 0, n)
  }

  lemma FillIsUnique(prefix: string, walk: seq<Entry>, limits: Limits, m: nat, n: nat)
    requires IsFill(prefix, walk, limits, m) && IsFill(prefix, walk, limits, n)
    ensures m == n
  {
  }

  /** A call skips objects if and only if its result fills up inside such a last page. */
  lemma CallSkipsExactlyWhen(prefix: string, listing: Listing, cursor: Cursor, limits: Limits)
    requires ValidListing(listing) && limits.maxResults > 0
    ensures Call(prefix, listing, cursor, limits).skipped != [] <==> LeavesGap(prefix, listing, cursor, limits)
  {
    hide IsFill, StopsInsideLastPage, StaleKeys, Window, Scan;
    var out := Call(prefix, listing, cursor, limits);
    ScanSkips(prefix, listing, cursor, 0, [], 0, limits);
    CallExamines(prefix, listing, cursor, limits);
    if LeavesGap(prefix, listing, cursor, limits) {
      var window := Window(listing, cursor, limits);
      var n :| IsFill(prefix, window, limits, n) && StopsInsideLastPage(listing, cursor, limits.maxScan, 0, n);
      FillIsUnique(prefix, window, limits, n, |out.examined|);
    }
  }

  // ----- Coverage without gaps -----

  /** None of the next `n` calls leaves a gap. */
  ghost predicate NoGaps(prefix: string, listing: Listing, cursor: Cursor, limits: Limits, n: nat)
    decreases n
  {
    n == 0 || (!LeavesGap(prefix, listing, cursor, limits)
               && NoGaps(prefix, listing, Call(prefix, listing, cursor, limits).cursor, limits, n - 1))
  }

  lemma {:induction false} CallsFollowRing(prefix: string, listing: Listing, cursor: Cursor, limits: Limits, n: nat)
    requires ValidListing(listing) && limits.maxResults > 0 && NoGaps(prefix, listing, cursor, limits, n)
    ensures Follows(listing, cursor, ExaminedBy(prefix, listing, cursor, limits, n), CursorAfter(prefix, listing, cursor, limits, n))
    decreases n
  {
    hide LeavesGap, Call, Follows, ValidListing;
    if n == 0 {
      StaysPut(listing, cursor);
    } else {
      var out := Call(prefix, listing, cursor, limits);
      CallFollowsRing(prefix, listing, cursor, limits);
      CallSkipsExactlyWhen(prefix, listing, cursor, limits);
      assert out.examined + out.skipped == out.examined;
      CallsFollowRing(prefix, listing, out.cursor, limits, n - 1);
      FollowsInTurn(listing, cursor, out.examined, out.cursor, ExaminedBy(prefix, listing, out.cursor, limits, n - 1),
                    CursorAfter(prefix, listing, cursor, limits, n));
    }
  }

  lemma StaysPut(listing: Listing, cursor: Cursor)
    ensures Follows(listing, cursor, [], cursor)
  {
  }

  /** How many of the next `n` calls fill their result. */
  function FullCalls(prefix: string, listing: Listing, cursor: Cursor, limits: Limits, n: nat): nat
    decreases n
  {
    if n == 0 then 0
    else
      var out := Call(prefix, listing, cursor, limits);
      (if |out.candidates| >= limits.maxResults then 1 else 0) + FullCalls(prefix, listing, out.cursor, limits, n - 1)
  }

  /** The calls that do not fill their result, from a cursor `before` objects into its turn: either the turn is over, or they use up their budgets. */
  lemma {:induction false} FreshPass(prefix: string, listing: Listing, cursor: Cursor, limits: Limits, n: nat, before: nat)
    requires ValidListing(listing) && Passed(listing, cursor) <= before
    ensures var examined := |ExaminedBy(prefix, listing, cursor, limits, n)|;
      && FullCalls(prefix, listing, cursor, limits, n) <= n
      && (before + examined >= |Ring(listing)| || examined >= Times(n - FullCalls(prefix, listing, cursor, limits, n), limits.maxScan))
    decreases n
  {
    hide Call, Passed, ValidListing;
    if n > 0 {
      var out := Call(prefix, listing, cursor, limits);
      CallReach(prefix, listing, cursor, limits);
      FreshPass(prefix, listing, out.cursor, limits, n - 1, before + |out.examined|);
    }
  }

  lemma {:induction false} AnyPass(prefix: string, listing: Listing, cursor: Cursor, limits: Limits, n: nat)
    requires ValidListing(listing)
    ensures var examined, busy := |ExaminedBy(prefix, listing, cursor, limits, n)|, n - FullCalls(prefix, listing, cursor, limits, n);
      busy >= 0 && (examined >= |Ring(listing)| || busy == 0 || examined >= Times(busy - 1, limits.maxScan))
    decreases n
  {
    hide Call, Passed, ValidListing;
    if n > 0 {
      var out := Call(prefix, listing, cursor, limits);
      CallReach(prefix, listing, cursor, limits);
      if |out.candidates| < limits.maxResults && |out.examined| < limits.maxScan {
        FreshPass(prefix, listing, out.cursor, limits, n - 1, 0);
      } else {
        AnyPass(prefix, listing, out.cursor, limits, n - 1);
      }
    }
  }

  /** How many objects have a stale run key. */
  function StaleCount(prefix: string, walk: seq<Entry>, limits: Limits): nat {
    Count(walk, IsStale(prefix, limits))
  }

  function IsStale(prefix: string, limits: Limits): Entry -> bool { (e: Entry) => StaleKey(prefix, e, limits).Some? }

  lemma {:induction false} KeysAreCounted(prefix: string, walk: seq<Entry>, limits: Limits)
    ensures |StaleKeys(prefix, walk, limits)| <= StaleCount(prefix, walk, limits)
  {
    hide LogicalKey;
    if walk == [] {
      assert StaleKeys(prefix, walk, limits) == {};
    } else {
      KeysAreCounted(prefix, walk[1..], limits);
      var key := StaleKey(prefix, walk[0], limits);
      assert walk == [walk[0]] + walk[1..];
      assert StaleKeys(prefix, walk, limits) == StaleKeys(prefix, walk[1..], limits) + (if key.Some? then {key.value} else {});
    }
  }

  /** Each full call uses up `max_results` stale objects. */
  lemma {:induction false} FullCallsUseStale(prefix: string, listing: Listing, cursor: Cursor, limits: Limits, n: nat)
    requires ValidListing(listing)
    ensures Times(FullCalls(prefix, listing, cursor, limits, n), limits.maxResults)
         <= StaleCount(prefix, ExaminedBy(prefix, listing, cursor, limits, n), limits)
    decreases n
  {
    hide Call, ValidListing, StaleKeys, StaleKey, Count;
    if n == 0 {
    } else {
      var out := Call(prefix, listing, cursor, limits);
      FullCallsUseStale(prefix, listing, out.cursor, limits, n - 1);
      CountConcat(out.examined, ExaminedBy(prefix, listing, out.cursor, limits, n - 1), IsStale(prefix, limits));
      FullCallFindsEnough(prefix, listing, cursor, limits);
    }
  }

  lemma FullCallFindsEnough(prefix: string, listing: Listing, cursor: Cursor, limits: Limits)
    requires ValidListing(listing)
    ensures var out := Call(prefix, listing, cursor, limits);
      |out.candidates| >= limits.maxResults ==> StaleCount(prefix, out.examined, limits) >= limits.maxResults
  {
    hide Call, StaleKeys, Count;
    var out := Call(prefix, listing, cursor, limits);
    var window := Window(listing, cursor, limits);
    CallExamines(prefix, listing, cursor, limits);
    KeysAreCounted(prefix, out.examined, limits);
    assert window[..|window|] == window;
  }

  /** A walk that is no longer than the ring meets no object twice. */
  lemma WalkCountsOnce(prefix: string, ring: seq<Entry>, p: nat, n: nat, limits: Limits)
    requires n <= |ring| && (n == 0 || p < |ring|)
    ensures StaleCount(prefix, Walk(ring, p, n), limits) <= StaleCount(prefix, ring, limits)
  {
    hide Count, Walk;
    var stale := IsStale(prefix, limits);
    var size := |ring|;
    if n == 0 {
      NothingCounted(Walk(ring, p, n), stale);
    } else if p + n <= size {
      WalkIsSlice(ring, p, n);
      CountInside(ring, p, n, stale);
    } else {
      var first := size - p;
      WalkSplits(ring, p, first, n - first);
      WalkIsSlice(ring, p, first);
      WalkIsSlice(ring, 0, n - first);
      assert ring[p..p + first] == ring[p..] && ring[0..0 + (n - first)] == ring[..n - first];
      CountWrapped(ring, p, n - first, stale);
    }
  }

  lemma NothingCounted(s: seq<Entry>, f: Entry -> bool)
    requires s == []
    ensures Count(s, f) == 0
  {
  }

  lemma CountWrapped(ring: seq<Entry>, p: nat, k: nat, f: Entry -> bool)
    requires k <= p <= |ring|
    ensures Count(ring[p..] + ring[..k], f) <= Count(ring, f)
  {
    hide Count;
    CountConcat(ring[p..], ring[..k], f);
    CountConcat(ring[..k], ring[k..], f);
    CountConcat(ring[k..p], ring[p..], f);
    assert ring == ring[..k] + ring[k..] && ring[k..] == ring[k..p] + ring[p..];
  }

  lemma CountInside(s: seq<Entry>, p: nat, n: nat, f: Entry -> bool)
    requires p + n <= |s|
    ensures Count(s[p..p + n], f) <= Count(s, f)
  {
    hide Count;
    CountConcat(s[..p], s[p..], f);
    CountConcat(s[p..p + n], s[p + n..], f);
    assert s == s[..p] + s[p..] && s[p..] == s[p..p + n] + s[p + n..];
  }

  /**
   * Coverage: on an unchanged bucket, from any cursor and as long as no call leaves a gap, the calls together
   * walk both listings in order without gap or repeat, and more than N/max_scan + C/max_results + 1 of them
   * examine every one of the N objects, of which C have a stale run key.
   */
  lemma ScanCoversBucket(prefix: string, listing: Listing, cursor: Cursor, limits: Limits, n: nat)
    requires ValidListing(listing) && limits.maxResults > 0 && limits.maxScan > 0
    requires NoGaps(prefix, listing, cursor, limits, n)
    ensures var examined := ExaminedBy(prefix, listing, cursor, limits, n);
      && Follows(listing, cursor, examined, CursorAfter(prefix, listing, cursor, limits, n))
      && (n > |Ring(listing)| / limits.maxScan + StaleCount(prefix, Ring(listing), limits) / limits.maxResults + 1 ==>
            forall e | e in Ring(listing) :: e in examined)
  {
    hide ValidListing, NoGaps, LeavesGap, Call, StaleKey, Count, StaleCount, Walk;
    var examined := ExaminedBy(prefix, listing, cursor, limits, n);
    CallsFollowRing(prefix, listing, cursor, limits, n);
    if |examined| >= |Ring(listing)| {
      forall e | e in Ring(listing)
        ensures e in examined
      {
        var i :| 0 <= i < |Ring(listing)| && Ring(listing)[i] == e;
        WalkCovers(Ring(listing), Position(listing, cursor), |examined|, i);
      }
    } else {
      UnfinishedTurnIsShort(prefix, listing, cursor, limits, n);
    }
  }

  lemma UnfinishedTurnIsShort(prefix: string, listing: Listing, cursor: Cursor, limits: Limits, n: nat)
    requires ValidListing(listing) && limits.maxResults > 0 && limits.maxScan > 0
    requires var examined := ExaminedBy(prefix, listing, cursor, limits, n);
      |examined| < |Ring(listing)| && Follows(listing, cursor, examined, CursorAfter(prefix, listing, cursor, limits, n))
    ensures n <= |Ring(listing)| / limits.maxScan + StaleCount(prefix, Ring(listing), limits) / limits.maxResults + 1
  {
    hide ValidListing, Call, StaleCount, ExaminedBy, FullCalls, CursorAfter, Follows, Ring;
    var size, full := |Ring(listing)|, FullCalls(prefix, listing, cursor, limits, n);
    AnyPass(prefix, listing, cursor, limits, n);
    FullCallsAreFew(prefix, listing, cursor, limits, n);
    if n - full > 0 {
      TimesIsProduct(n - full - 1, limits.maxScan);
      QuotientBound(n - full - 1, size, limits.maxScan);
    }
  }

  lemma FullCallsAreFew(prefix: string, listing: Listing, cursor: Cursor, limits: Limits, n: nat)
    requires ValidListing(listing) && limits.maxResults > 0
    requires var examined := ExaminedBy(prefix, listing, cursor, limits, n);
      |examined| < |Ring(listing)| && Follows(listing, cursor, examined, CursorAfter(prefix, listing, cursor, limits, n))
    ensures FullCalls(prefix, listing, cursor, limits, n) <= StaleCount(prefix, Ring(listing), limits) / limits.maxResults
  {
    hide ValidListing, Call, StaleCount, ExaminedBy, FullCalls, CursorAfter, Walk, Position, Ring;
    var examined, stale := ExaminedBy(prefix, listing, cursor, limits, n), StaleCount(prefix, Ring(listing), limits);
    var full := FullCalls(prefix, listing, cursor, limits, n);
    FullCallsUseStale(prefix, listing, cursor, limits, n);
    WalkCountsOnce(prefix, Ring(listing), Position(listing, cursor), |examined|, limits);
    TimesIsProduct(full, limits.maxResults);
    QuotientBound(full, stale, limits.maxResults);
  }

  // ----- Starvation -----

  /** Each of the next `n` calls leaves a gap. */
  ghost predicate AllGaps(prefix: string, listing: Listing, cursor: Cursor, limits: Limits, n: nat)
    decreases n
  {
    n == 0 || (LeavesGap(prefix, listing, cursor, limits)
               && AllGaps(prefix, listing, Call(prefix, listing, cursor, limits).cursor, limits, n - 1))
  }

  /** A call with a gap, from the start of a listing: where the gap is, and where the cursor goes. */
  lemma GapFromStart(prefix: string, listing: Listing, state: ArtifactState, limits: Limits)
    requires ValidListing(listing) && limits.maxResults > 0 && LeavesGap(prefix, listing, Cursor(state, None), limits)
    ensures var out, first, second := Call(prefix, listing, Cursor(state, None), limits), listing.Of(state), listing.Of(Other(state));
      && Window(listing, Cursor(state, None), limits) == Budgeted(first + second, limits.maxScan)
      && |StaleKeys(prefix, out.examined, limits)| >= limits.maxResults
      && ((out.examined + out.skipped == first && out.cursor == Cursor(Other(state), None))
          || (out.examined + out.skipped == first + second && out.cursor == Cursor(state, None)))
  {
    hide FillsAfter, FoundIn, Scan, LeavesGap, After, StaleKeys;
    var cursor := Cursor(state, None);
    var window := Window(listing, cursor, limits);
    CallSkipsExactlyWhen(prefix, listing, cursor, limits);
    ScanFills(prefix, listing, cursor, 0, [], 0, limits);
    CallExamines(prefix, listing, cursor, limits);
    CallIsBounded(prefix, listing, cursor, limits);
    AfterNothing(listing.Of(state));
    assert window[..|window|] == window;
  }

  /** The second listing comes first in the window, and the first one is not read further than before. */
  lemma NoFurtherThanBefore(prefix: string, listing: Listing, state: ArtifactState, limits: Limits, seen: seq<Entry>)
    requires ValidListing(listing) && limits.maxResults > 0 && LeavesGap(prefix, listing, Cursor(Other(state), None), limits)
    requires seen <= listing.Of(state) && |StaleKeys(prefix, seen, limits)| >= limits.maxResults
    ensures forall e | e in Call(prefix, listing, Cursor(Other(state), None), limits).examined :: e in listing.Of(Other(state)) || e in seen
  {
    hide LeavesGap, Call, StaleKey, ValidListing;
    var other := listing.Of(Other(state));
    var out := Call(prefix, listing, Cursor(Other(state), None), limits);
    GapFromStart(prefix, listing, Other(state), limits);
    CallExamines(prefix, listing, Cursor(Other(state), None), limits);
    var window := Window(listing, Cursor(Other(state), None), limits);
    var all := other + listing.Of(state);
    var limit := |other| + |seen|;
    if |out.examined| > limit {
      assert window[..limit] == all[..limit] == other + seen;
      MoreKeys(prefix, other, seen, limits);
      assert false;
    }
    assert out.examined == all[..|out.examined|];
    forall e | e in out.examined
      ensures e in other || e in seen
    {
      var i :| 0 <= i < |out.examined| && all[i] == e;
      if i >= |other| {
        assert e == seen[i - |other|];
      }
    }
  }

  lemma MoreKeys(prefix: string, a: seq<Entry>, b: seq<Entry>, limits: Limits)
    ensures |StaleKeys(prefix, b, limits)| <= |StaleKeys(prefix, a + b, limits)|
  {
    hide StaleKey;
    assert forall e | e in b :: e in a + b;
    SubsetIsSmaller(StaleKeys(prefix, b, limits), StaleKeys(prefix, a + b, limits));
  }

  /** The first call has stopped inside its own listing: no later one gets further in it. */
  lemma {:induction false} GapInFirst(prefix: string, listing: Listing, state: ArtifactState, limits: Limits, seen: seq<Entry>, from: ArtifactState, n: nat)
    requires ValidListing(listing) && limits.maxResults > 0
    requires var out := Call(prefix, listing, Cursor(state, None), limits);
      out.examined == seen && out.cursor == Cursor(Other(state), None)
    requires seen <= listing.Of(state) && |StaleKeys(prefix, seen, limits)| >= limits.maxResults
    requires AllGaps(prefix, listing, Cursor(from, None), limits, n)
    ensures forall e | e in ExaminedBy(prefix, listing, Cursor(from, None), limits, n) :: e in listing.Of(Other(state)) || e in seen
    decreases n
  {
    hide LeavesGap, Call, StaleKeys, ValidListing;
    if n > 0 {
      var out := Call(prefix, listing, Cursor(from, None), limits);
      if from == state {
        GapInFirst(prefix, listing, state, limits, seen, Other(state), n - 1);
      } else {
        NoFurtherThanBefore(prefix, listing, state, limits, seen);
        GapFromStart(prefix, listing, from, limits);
        GapInFirst(prefix, listing, state, limits, seen, out.cursor.state, n - 1);
      }
    }
  }

  /** The first call has stopped inside the other listing: every later call is the same call. */
  lemma {:induction false} GapInSecond(prefix: string, listing: Listing, state: ArtifactState, limits: Limits, n: nat)
    requires Call(prefix, listing, Cursor(state, None), limits).cursor == Cursor(state, None)
    ensures forall e | e in ExaminedBy(prefix, listing, Cursor(state, None), limits, n) ::
      e in Call(prefix, listing, Cursor(state, None), limits).examined
    decreases n
  {
    hide Call;
    if n > 0 {
      GapInSecond(prefix, listing, state, limits, n - 1);
    }
  }

  /** No object is listed twice. */
  lemma ListedOnce(listing: Listing, state: ArtifactState, i: nat, j: nat)
    requires ValidListing(listing) && i < j < |listing.Of(state) + listing.Of(Other(state))|
    ensures (listing.Of(state) + listing.Of(Other(state)))[i] != (listing.Of(state) + listing.Of(Other(state)))[j]
  {
    var first, second := listing.Of(state), listing.Of(Other(state));
    if j < |first| {
      assert Less(first[i].key, first[j].key);
      LessIrreflexive(first[i].key);
    } else if i >= |first| {
      assert Less(second[i - |first|].key, second[j - |first|].key);
      LessIrreflexive(second[i - |first|].key);
    }
  }

  /** An object is neither among those before it, nor in the other listing. */
  lemma OnlyThere(listing: Listing, state: ArtifactState, j: nat, before: seq<Entry>)
    requires var all := listing.Of(state) + listing.Of(Other(state)); ValidListing(listing) && before <= all && |before| <= j < |all|
    ensures var all := listing.Of(state) + listing.Of(Other(state));
      all[j] !in before && (j < |listing.Of(state)| ==> all[j] !in listing.Of(Other(state)))
  {
    hide ValidListing;
    var first, all := listing.Of(state), listing.Of(state) + listing.Of(Other(state));
    forall i | 0 <= i < |before|
      ensures before[i] != all[j]
    {
      ListedOnce(listing, state, i, j);
      assert before[i] == all[i];
    }
    if j < |first| {
      forall i | 0 <= i < |listing.Of(Other(state))|
        ensures listing.Of(Other(state))[i] != all[j]
      {
        ListedOnce(listing, state, j, |first| + i);
        assert all[|first| + i] == listing.Of(Other(state))[i];
      }
    }
  }

  /**
   * Starvation: on an unchanged bucket, when a call from the start of a listing leaves a gap and so does every
   * later call, none of them ever examines anything in that first gap.
   */
  lemma SkippedStaysUnseen(prefix: string, listing: Listing, state: ArtifactState, limits: Limits, n: nat, e: Entry)
    requires ValidListing(listing) && limits.maxResults > 0 && n > 0
    requires AllGaps(prefix, listing, Cursor(state, None), limits, n)
    requires e in Call(prefix, listing, Cursor(state, None), limits).skipped
    ensures e !in ExaminedBy(prefix, listing, Cursor(state, None), limits, n)
  {
    hide LeavesGap, Call, StaleKeys, ValidListing, ExaminedBy;
    var out := Call(prefix, listing, Cursor(state, None), limits);
    var all := listing.Of(state) + listing.Of(Other(state));
    GapFromStart(prefix, listing, state, limits);
    assert out.examined + out.skipped <= all;
    var k :| 0 <= k < |out.skipped| && out.skipped[k] == e;
    var j := |out.examined| + k;
    assert all[j] == (out.examined + out.skipped)[j] == e;
    OnlyThere(listing, state, j, out.examined);
    if out.cursor == Cursor(state, None) {
      GapInSecond(prefix, listing, state, limits, n);
    } else {
      assert j < |listing.Of(state)|;
      GapInFirst(prefix, listing, state, limits, out.examined, state, n);
    }
  }

  /** Two old ready objects, and calls that may return one key. */
  const TWO_OBJECTS := Listing([], [Entry(Ready, "ready/runs/a", 0), Entry(Ready, "ready/runs/b", 0)], _ => PAGE_LIMIT)
  const ONE_RESULT := Limits(0, 2, 1)

  lemma TwoObjectsAreListed()
    ensures ValidListing(TWO_OBJECTS)
  {
    hide Less;
    KeysInOrder();
    assert TWO_OBJECTS.Of(Temporary) == [] && TWO_OBJECTS.Of(Ready) == TWO_OBJECTS.ready;
  }

  lemma KeysInOrder()
    ensures Less("ready/runs/a", "ready/runs/b")
  {
    var base, a, b := "ready/runs/", "a", "b";
    assert Less(a, b);
    PrefixDoesNotDecide(base, a, b);
    hide Less;
    assert base + a == "ready/runs/a" && base + b == "ready/runs/b";
  }

  lemma FirstObjectIsStale()
    ensures AllStale("", TWO_OBJECTS.ready, ONE_RESULT, 1)
  {
    var a := TWO_OBJECTS.ready[0].key;
    assert ObjectPrefix("", Ready) == "ready/";
    assert a == "ready/" + ("runs/" + "a");
    assert a[6..] == "runs/" + "a";
  }

  lemma {:induction false} PrefixDoesNotDecide(prefix: string, a: string, b: string)
    requires Less(a, b)
    ensures Less(prefix + a, prefix + b)
  {
    if prefix == "" {
      assert prefix + a == a && prefix + b == b;
    } else {
      PrefixDoesNotDecide(prefix[1..], a, b);
      assert (prefix + a)[1..] == prefix[1..] + a && (prefix + b)[1..] == prefix[1..] + b;
    }
  }

  /** Of these two objects the second is never examined, by however many calls: every one of them leaves the gap. */
  lemma {:induction false} SecondObjectStarves(n: nat)
    ensures ValidListing(TWO_OBJECTS) && AllGaps("", TWO_OBJECTS, Cursor(Temporary, None), ONE_RESULT, n)
    ensures TWO_OBJECTS.ready[1] !in ExaminedBy("", TWO_OBJECTS, Cursor(Temporary, None), ONE_RESULT, n)
    ensures n > 0 ==> Call("", TWO_OBJECTS, Cursor(Temporary, None), ONE_RESULT).skipped == [TWO_OBJECTS.ready[1]]
    decreases n
  {
    hide LeavesGap, Call, ValidListing, ExaminedBy, AllStale;
    var start := Cursor(Temporary, None);
    TwoObjectsAreListed();
    FirstObjectIsStale();
    LaterObjectsStarve("", TWO_OBJECTS, ONE_RESULT, n);
    if n > 0 {
      OneStarvingCall("", TWO_OBJECTS, ONE_RESULT);
      CallSkipsExactlyWhen("", TWO_OBJECTS, start, ONE_RESULT);
      SecondObjectStarves(n - 1);
      assert TWO_OBJECTS.ready[1..] == [TWO_OBJECTS.ready[1]];
      SkippedStaysUnseen("", TWO_OBJECTS, Temporary, ONE_RESULT, n, TWO_OBJECTS.ready[1]);
    }
  }
}
