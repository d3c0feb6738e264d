/**
 * How far one call of the bucket scan gets, determined from the listing, the cursor and the limits alone:
 * it examines what lies ahead of the cursor until its budget or its result is used up.
 */
module S3GcFill {
  import opened Prelude
  import opened Artifacts
  import opened Sorting
  import opened S3GcScan

  /** The run key of an object that was listed as old enough. */
  function StaleKey(prefix: string, e: Entry, limits: Limits): Option<string> {
    if e.modified <= limits.cutoff then LogicalKey(prefix, e.state, e.key) else None
  }

  /** The stale run keys of a stretch of objects. */
  function StaleKeys(prefix: string, walk: seq<Entry>, limits: Limits): set<string> {
    set e | e in walk && StaleKey(prefix, e, limits).Some? :: StaleKey(prefix, e, limits).value
  }

  /** What a call can reach: the rest of the cursor's listing, and then the other listing, unless visited already. */
  function Ahead(listing: Listing, cursor: Cursor, visited: nat): seq<Entry> {
    if visited >= 2 then []
    else After(listing.Of(cursor.state), cursor.after) + (if visited == 0 then listing.Of(Other(cursor.state)) else [])
  }

  function Budgeted(walk: seq<Entry>, budget: nat): seq<Entry> {
    if |walk| <= budget then walk else walk[..budget]
  }

  function Grown(prefix: string, found: seq<string>, e: Entry, limits: Limits): seq<string> {
    var key := StaleKey(prefix, e, limits);
    if key.Some? && key.value !in found then found + [key.value] else found
  }

  /** How many objects of the walk are examined before the result is full, and what has been found by then. */
  function FillsAfter(prefix: string, walk: seq<Entry>, found: seq<string>, limits: Limits): (n: nat)
    ensures n <= |walk|
  {
    if walk == [] || |found| >= limits.maxResults then 0
    else 1 + FillsAfter(prefix, walk[1..], Grown(prefix, found, walk[0], limits), limits)
  }

  function FoundIn(prefix: string, walk: seq<Entry>, found: seq<string>, limits: Limits): seq<string> {
    if walk == [] || |found| >= limits.maxResults then found
    else FoundIn(prefix, walk[1..], Grown(prefix, found, walk[0], limits), limits)
  }

  // ----- What that number is -----

  /** `n` is the least number of objects with `max_results` different stale keys, or all of the walk if there is none. */
  ghost predicate IsFill(prefix: string, walk: seq<Entry>, limits: Limits, n: nat) {
    && n <= |walk|
    && (forall i | 0 <= i < n :: |StaleKeys(prefix, walk[..i], limits)| < limits.maxResults)
    && (n < |walk| ==> |StaleKeys(prefix, walk[..n], limits)| == limits.maxResults)
  }

  function Keys(prefix: string, found: seq<string>, walk: seq<Entry>, limits: Limits): set<string> {
    (set k | k in found) + StaleKeys(prefix, walk, limits)
  }

  lemma KeysGrow(prefix: string, found: seq<string>, e: Entry, rest: seq<Entry>, limits: Limits)
    ensures Keys(prefix, found, [e] + rest, limits) == Keys(prefix, Grown(prefix, found, e, limits), rest, limits)
  {
    hide LogicalKey;
    var more := Grown(prefix, found, e, limits);
    var key := StaleKey(prefix, e, limits);
    assert StaleKeys(prefix, [e] + rest, limits) == StaleKeys(prefix, rest, limits) + (if key.Some? then {key.value} else {}) by {
      assert forall x :: x in [e] + rest <==> x == e || x in rest;
    }
    assert (set k | k in more) == (set k | k in found) + (if key.Some? then {key.value} else {});
  }

  lemma {:induction false} FillIsLeast(prefix: string, walk: seq<Entry>, found: seq<string>, limits: Limits)
    requires Distinct(found) && |found| <= limits.maxResults
    ensures var n := FillsAfter(prefix, walk, found, limits);
      && (forall i | 0 <= i < n :: |Keys(prefix, found, walk[..i], limits)| < limits.maxResults)
      && (n < |walk| ==> |Keys(prefix, found, walk[..n], limits)| == limits.maxResults)
      && |FoundIn(prefix, walk, found, limits)| == |Keys(prefix, found, walk[..n], limits)| <= limits.maxResults
      && Distinct(FoundIn(prefix, walk, found, limits))
  {
    hide StaleKey, Grown, Keys, Distinct;
    NoKeys(prefix, found, walk, limits);
    if walk != [] && |found| < limits.maxResults {
      var more := Grown(prefix, found, walk[0], limits);
      var n := FillsAfter(prefix, walk[1..], more, limits);
      GrownByOne(prefix, found, walk[0], limits);
      FillIsLeast(prefix, walk[1..], more, limits);
      forall i | 0 <= i <= n
        ensures Keys(prefix, found, walk[..i + 1], limits) == Keys(prefix, more, walk[1..][..i], limits)
      {
        assert walk[..i + 1] == [walk[0]] + walk[1..][..i];
        KeysGrow(prefix, found, walk[0], walk[1..][..i], limits);
      }
      forall i | 0 <= i < n + 1
        ensures |Keys(prefix, found, walk[..i], limits)| < limits.maxResults
      {
        if i > 0 {
          assert Keys(prefix, found, walk[..i - 1 + 1], limits) == Keys(prefix, more, walk[1..][..i - 1], limits);
        }
      }
    }
  }

  lemma GrownByOne(prefix: string, found: seq<string>, e: Entry, limits: Limits)
    requires Distinct(found)
    ensures Distinct(Grown(prefix, found, e, limits)) && |Grown(prefix, found, e, limits)| <= |found| + 1
  {
    hide StaleKey;
  }

  lemma NoKeys(prefix: string, found: seq<string>, walk: seq<Entry>, limits: Limits)
    requires Distinct(found)
    ensures |Keys(prefix, found, walk[..0], limits)| == |found|
  {
    DistinctCardinality(found);
    assert Keys(prefix, found, walk[..0], limits) == set k | k in found;
  }

  /** The count is what it claims to be, and the result is full exactly when the walk has keys enough. */
  lemma FillCounts(prefix: string, walk: seq<Entry>, limits: Limits)
    ensures var n := FillsAfter(prefix, walk, [], limits);
      && IsFill(prefix, walk, limits, n)
      && |FoundIn(prefix, walk, [], limits)| == |StaleKeys(prefix, walk[..n], limits)| <= limits.maxResults
      && (|FoundIn(prefix, walk, [], limits)| == limits.maxResults <==> |StaleKeys(prefix, walk, limits)| >= limits.maxResults)
  {
    hide StaleKeys;
    var n := FillsAfter(prefix, walk, [], limits);
    FillIsLeast(prefix, walk, [], limits);
    forall i | 0 <= i <= |walk|
      ensures Keys(prefix, [], walk[..i], limits) == StaleKeys(prefix, walk[..i], limits)
    {
    }
    StaleKeysGrow(prefix, walk, n, limits);
    assert walk[..|walk|] == walk;
  }

  lemma StaleKeysGrow(prefix: string, walk: seq<Entry>, n: nat, limits: Limits)
    requires n <= |walk|
    ensures StaleKeys(prefix, walk[..n], limits) <= StaleKeys(prefix, walk, limits)
    ensures |StaleKeys(prefix, walk[..n], limits)| <= |StaleKeys(prefix, walk, limits)|
  {
    hide StaleKey;
    assert forall e | e in walk[..n] :: e in walk;
    SubsetIsSmaller(StaleKeys(prefix, walk[..n], limits), StaleKeys(prefix, walk, limits));
  }

  // ----- A call examines exactly that many -----

  lemma {:induction false} FillSplits(prefix: string, a: seq<Entry>, b: seq<Entry>, found: seq<string>, limits: Limits)
    ensures var f := FoundIn(prefix, a, found, limits);
      && FillsAfter(prefix, a + b, found, limits)
         == (if |f| >= limits.maxResults then FillsAfter(prefix, a, found, limits) else |a| + FillsAfter(prefix, b, f, limits))
      && FoundIn(prefix, a + b, found, limits) == FoundIn(prefix, b, f, limits)
      && (|f| < limits.maxResults ==> FillsAfter(prefix, a, found, limits) == |a|)
  {
    hide Grown;
    if a == [] || |found| >= limits.maxResults {
      assert a == [] ==> a + b == b;
    } else {
      FillSplits(prefix, a[1..], b, Grown(prefix, found, a[0], limits), limits);
      assert (a + b)[1..] == a[1..] + b;
    }
  }

  lemma {:induction false} ExamineIsFill(prefix: string, state: ArtifactState, page: seq<Entry>, found: seq<string>, limits: Limits)
    requires Under(state, page) && |found| < limits.maxResults
    ensures Examine(prefix, state, page, found, limits) == (FoundIn(prefix, page, found, limits), FillsAfter(prefix, page, found, limits))
  {
    hide LogicalKey;
    if page != [] {
      var more := Grown(prefix, found, page[0], limits);
      if |more| < limits.maxResults {
        ExamineIsFill(prefix, state, page[1..], more, limits);
      }
    }
  }

  /** What lies ahead of a cursor after one page. */
  lemma BudgetSplits(first: seq<Entry>, rest: seq<Entry>, budget: nat)
    requires |first| <= budget
    ensures Budgeted(first + rest, budget) == first + Budgeted(rest, budget - |first|)
  {
  }

  /** A page on its own: what it examines. */
  lemma PageFills(prefix: string, listing: Listing, cursor: Cursor, scanned: nat, candidates: seq<string>, visited: nat, limits: Limits)
    requires ValidListing(listing) && scanned < limits.maxScan && |candidates| < limits.maxResults
    ensures var step := ScanPage(prefix, listing, cursor, scanned, candidates, visited, limits);
            var page := Page(listing, cursor, limits.maxScan - scanned);
      && step.examined == page[..FillsAfter(prefix, page, candidates, limits)]
      && step.candidates == FoundIn(prefix, page, candidates, limits)
      && |page| <= limits.maxScan - scanned
      && (step.skipped != [] ==> step.examined != [])
  {
    hide After, Examine, FillsAfter, FoundIn, S3GcScan.Sorted;
    var l := listing.Of(cursor.state);
    var page := Page(listing, cursor, limits.maxScan - scanned);
    AfterIsSuffix(l, cursor.after);
    assert Under(cursor.state, page);
    ExamineIsFill(prefix, cursor.state, page, candidates, limits);
    NothingToFind(prefix, candidates, limits);
  }

  /** Where a page leaves the cursor, and what lies ahead of it then. */
  lemma PageMoves(prefix: string, listing: Listing, cursor: Cursor, scanned: nat, candidates: seq<string>, visited: nat, limits: Limits)
    requires ValidListing(listing) && scanned < limits.maxScan && visited < 2
    ensures var step := ScanPage(prefix, listing, cursor, scanned, candidates, visited, limits);
            var rest := After(listing.Of(cursor.state), cursor.after);
            var page := Page(listing, cursor, limits.maxScan - scanned);
      && page <= rest
      && (step.visited != visited ==> step.visited == visited + 1 && step.cursor == Cursor(Other(cursor.state), None)
                                      && page == rest == step.examined + step.skipped)
      && (step.visited == visited ==> step.cursor.state == cursor.state && step.skipped == [] && page != []
                                      && rest == step.examined + After(listing.Of(cursor.state), step.cursor.after))
  {
    hide After, Examine, FillsAfter, FoundIn;
    var l := listing.Of(cursor.state);
    var rest := After(l, cursor.after);
    var page := Page(listing, cursor, limits.maxScan - scanned);
    AfterIsSuffix(l, cursor.after);
    if page != [] {
      var n := Examine(prefix, cursor.state, page, candidates, limits).1;
      if page != rest {
        PageEndsAt(l, rest, page, n);
      } else {
        assert page[..n] + page[n..] == page;
      }
    }
  }

  lemma PageEndsAt(l: seq<Entry>, rest: seq<Entry>, page: seq<Entry>, n: nat)
    requires S3GcScan.Sorted(l) && |rest| <= |l| && rest == l[|l| - |rest|..] && page <= rest && 0 < n <= |page|
    ensures rest == page[..n] + After(l, Some(page[n - 1].key))
  {
    hide After, S3GcScan.Sorted;
    var j := |l| - |rest| + n - 1;
    assert page[n - 1] == l[j];
    AfterOwnKey(l, j);
    assert rest == page[..n] + l[j + 1..];
  }

  lemma AheadAfterListing(listing: Listing, cursor: Cursor, visited: nat)
    requires visited < 2
    ensures Ahead(listing, cursor, visited)
         == After(listing.Of(cursor.state), cursor.after) + Ahead(listing, Cursor(Other(cursor.state), None), visited + 1)
  {
    hide After;
    AfterNothing(listing.Of(Other(cursor.state)));
  }

  lemma NothingToFind(prefix: string, found: seq<string>, limits: Limits)
    ensures FoundIn(prefix, [], found, limits) == found && FillsAfter(prefix, [], found, limits) == 0
  {
  }

  lemma AfterNothing(l: seq<Entry>)
    ensures After(l, None) == l
  {
  }

  /** Where a call that skips leaves off: at the end of a listing it passed over, on the start of the next one. */
  ghost predicate SkipEnds(listing: Listing, cursor: Cursor, visited: nat, out: Outcome) {
    out.examined != [] && (
    || (out.examined + out.skipped == After(listing.Of(cursor.state), cursor.after) && out.cursor == Cursor(Other(cursor.state), None))
    || (visited == 0 && out.examined + out.skipped == Ahead(listing, cursor, 0) && out.cursor == Cursor(cursor.state, None)
        && |out.examined| > |After(listing.Of(cursor.state), cursor.after)|))
  }

  /** The page that does not fill the result hands over to the rest of what lies ahead. */
  lemma AheadMovesOn(prefix: string, listing: Listing, cursor: Cursor, scanned: nat, candidates: seq<string>, visited: nat, limits: Limits)
    requires ValidListing(listing) && scanned < limits.maxScan && visited < 2 && |candidates| < limits.maxResults
    requires var page := Page(listing, cursor, limits.maxScan - scanned);
      |FoundIn(prefix, page, candidates, limits)| < limits.maxResults
    ensures var step := ScanPage(prefix, listing, cursor, scanned, candidates, visited, limits);
            var page := Page(listing, cursor, limits.maxScan - scanned);
      && step.examined == page && step.skipped == []
      && Ahead(listing, cursor, visited) == page + Ahead(listing, step.cursor, step.visited)
  {
    hide After, FillsAfter, FoundIn, ValidListing, ScanPage, Page;
    PageFills(prefix, listing, cursor, scanned, candidates, visited, limits);
    PageMoves(prefix, listing, cursor, scanned, candidates, visited, limits);
    AheadAfterListing(listing, cursor, visited);
    var page := Page(listing, cursor, limits.maxScan - scanned);
    FillSplits(prefix, page, [], candidates, limits);
    var step := ScanPage(prefix, listing, cursor, scanned, candidates, visited, limits);
    assert page[..|page|] == page;
    if step.visited == visited && visited == 0 {
      assert After(listing.Of(cursor.state), cursor.after) + listing.Of(Other(cursor.state))
          == page + (After(listing.Of(cursor.state), step.cursor.after) + listing.Of(Other(cursor.state)));
    } else if step.visited == visited {
      assert After(listing.Of(cursor.state), cursor.after) + []
          == page + (After(listing.Of(cursor.state), step.cursor.after) + []);
    }
  }

  /** A page, and what lies ahead of it within the budget. */
  lemma WindowSplits(prefix: string, listing: Listing, cursor: Cursor, scanned: nat, candidates: seq<string>, visited: nat, limits: Limits)
    returns (page: seq<Entry>, ahead: seq<Entry>)
    requires ValidListing(listing) && scanned < limits.maxScan && visited < 2 && |candidates| < limits.maxResults
    ensures page == Page(listing, cursor, limits.maxScan - scanned) && |page| <= limits.maxScan - scanned
    ensures |page| <= |Ahead(listing, cursor, visited)| && Ahead(listing, cursor, visited) == page + Ahead(listing, cursor, visited)[|page|..]
    ensures ahead == Budgeted(Ahead(listing, cursor, visited)[|page|..], limits.maxScan - scanned - |page|)
    ensures Budgeted(Ahead(listing, cursor, visited), limits.maxScan - scanned) == page + ahead
  {
    hide ScanPage, Page, After, ValidListing, FillsAfter, FoundIn, Ahead, Budgeted;
    page := Page(listing, cursor, limits.maxScan - scanned);
    PageFills(prefix, listing, cursor, scanned, candidates, visited, limits);
    PageMoves(prefix, listing, cursor, scanned, candidates, visited, limits);
    AheadAfterListing(listing, cursor, visited);
    var rest := Ahead(listing, cursor, visited)[|page|..];
    assert Ahead(listing, cursor, visited) == page + rest;
    BudgetSplits(page, rest, limits.maxScan - scanned);
    ahead := Budgeted(rest, limits.maxScan - scanned - |page|);
  }

  /** The result fills up on this page: the scan is over. */
  lemma FillsHere(prefix: string, listing: Listing, cursor: Cursor, scanned: nat, candidates: seq<string>, visited: nat, limits: Limits)
    requires ValidListing(listing) && scanned < limits.maxScan && visited < 2 && |candidates| < limits.maxResults
    requires |ScanPage(prefix, listing, cursor, scanned, candidates, visited, limits).candidates| >= limits.maxResults
    ensures var out := Scan(prefix, listing, cursor, scanned, candidates, visited, limits);
            var walk := Budgeted(Ahead(listing, cursor, visited), limits.maxScan - scanned);
      && out.examined == walk[..FillsAfter(prefix, walk, candidates, limits)]
      && out.candidates == FoundIn(prefix, walk, candidates, limits)
      && (out.skipped != [] ==> SkipEnds(listing, cursor, visited, out))
  {
    hide ScanPage, Page, After, ValidListing, FillsAfter, FoundIn, Ahead, Budgeted, SkipEnds;
    var step := ScanPage(prefix, listing, cursor, scanned, candidates, visited, limits);
    var out := Scan(prefix, listing, cursor, scanned, candidates, visited, limits);
    PageFills(prefix, listing, cursor, scanned, candidates, visited, limits);
    PageMoves(prefix, listing, cursor, scanned, candidates, visited, limits);
    var page, ahead := WindowSplits(prefix, listing, cursor, scanned, candidates, visited, limits);
    FillSplits(prefix, page, ahead, candidates, limits);
    FullStops(prefix, ahead, step.candidates, limits);
    ScanStops(prefix, listing, step.cursor, scanned + |step.examined|, step.candidates, step.visited, limits);
    assert out.examined == step.examined && out.skipped == step.skipped && out.cursor == step.cursor;
    assert step.examined == (page + ahead)[..FillsAfter(prefix, page, candidates, limits)];
    if step.skipped != [] {
      SkipsOnePage(listing, cursor, visited, out);
    }
  }

  lemma {:induction false} ScanFills(prefix: string, listing: Listing, cursor: Cursor, scanned: nat, candidates: seq<string>, visited: nat, limits: Limits)
    requires ValidListing(listing) && scanned <= limits.maxScan && visited <= 2
    ensures var out := Scan(prefix, listing, cursor, scanned, candidates, visited, limits);
            var walk := Budgeted(Ahead(listing, cursor, visited), limits.maxScan - scanned);
      && out.examined == walk[..FillsAfter(prefix, walk, candidates, limits)]
      && out.candidates == FoundIn(prefix, walk, candidates, limits)
      && (out.skipped != [] ==> SkipEnds(listing, cursor, visited, out))
    decreases 2 - visited, limits.maxScan - scanned
  {
    hide ScanPage, Page, After, ValidListing, FillsAfter, FoundIn, Ahead, Budgeted, SkipEnds;
    if Done(scanned, candidates, visited, limits) {
      NothingAhead(prefix, listing, cursor, scanned, candidates, visited, limits);
    } else {
      var step := ScanPage(prefix, listing, cursor, scanned, candidates, visited, limits);
      if |step.candidates| >= limits.maxResults {
        FillsHere(prefix, listing, cursor, scanned, candidates, visited, limits);
      } else {
        var page, ahead := WindowSplits(prefix, listing, cursor, scanned, candidates, visited, limits);
        PageFills(prefix, listing, cursor, scanned, candidates, visited, limits);
        PageMoves(prefix, listing, cursor, scanned, candidates, visited, limits);
        AheadMovesOn(prefix, listing, cursor, scanned, candidates, visited, limits);
        FillSplits(prefix, page, ahead, candidates, limits);
        assert Ahead(listing, cursor, visited)[|page|..] == Ahead(listing, step.cursor, step.visited);
        ScanFills(prefix, listing, step.cursor, scanned + |page|, step.candidates, step.visited, limits);
        var out := Scan(prefix, listing, cursor, scanned, candidates, visited, limits);
        var next := Scan(prefix, listing, step.cursor, scanned + |page|, step.candidates, step.visited, limits);
        assert page + ahead[..|next.examined|] == (page + ahead)[..|page| + |next.examined|];
        if next.skipped != [] {
          SkipGoesOn(listing, cursor, step, visited, next, out, page);
        }
      }
    }
  }

  lemma NothingAhead(prefix: string, listing: Listing, cursor: Cursor, scanned: nat, candidates: seq<string>, visited: nat, limits: Limits)
    requires scanned <= limits.maxScan && Done(scanned, candidates, visited, limits)
    ensures var walk := Budgeted(Ahead(listing, cursor, visited), limits.maxScan - scanned);
      FillsAfter(prefix, walk, candidates, limits) == 0 && FoundIn(prefix, walk, candidates, limits) == candidates
  {
  }

  lemma ScanStops(prefix: string, listing: Listing, cursor: Cursor, scanned: nat, candidates: seq<string>, visited: nat, limits: Limits)
    requires scanned <= limits.maxScan && Done(scanned, candidates, visited, limits)
    ensures Scan(prefix, listing, cursor, scanned, candidates, visited, limits) == Outcome(cursor, candidates, [], [])
  {
  }

  lemma FullStops(prefix: string, walk: seq<Entry>, found: seq<string>, limits: Limits)
    requires |found| >= limits.maxResults
    ensures FillsAfter(prefix, walk, found, limits) == 0 && FoundIn(prefix, walk, found, limits) == found
  {
  }

  lemma SkipsOnePage(listing: Listing, cursor: Cursor, visited: nat, out: Outcome)
    requires out.examined != []
    requires After(listing.Of(cursor.state), cursor.after) == out.examined + out.skipped && out.cursor == Cursor(Other(cursor.state), None)
    ensures SkipEnds(listing, cursor, visited, out)
  {
  }

  lemma SkipGoesOn(listing: Listing, cursor: Cursor, step: PageStep, visited: nat, next: Outcome, out: Outcome, page: seq<Entry>)
    requires visited < 2 && next.skipped != [] && SkipEnds(listing, step.cursor, step.visited, next)
    requires out.examined == page + next.examined && out.skipped == next.skipped && out.cursor == next.cursor
    requires Ahead(listing, cursor, visited) == page + Ahead(listing, step.cursor, step.visited)
    requires
      || (step.visited == visited + 1 && step.cursor == Cursor(Other(cursor.state), None) && page == After(listing.Of(cursor.state), cursor.after))
      || (step.visited == visited && step.cursor.state == cursor.state
          && After(listing.Of(cursor.state), cursor.after) == page + After(listing.Of(cursor.state), step.cursor.after))
    requires step.visited < 2
    ensures SkipEnds(listing, cursor, visited, out)
  {
    hide After;
    AfterNothing(listing.Of(Other(cursor.state)));
    assert page + next.examined + next.skipped == page + (next.examined + next.skipped);
  }
}
