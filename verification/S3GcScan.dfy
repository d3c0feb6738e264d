/**
 * The bounded, rotating garbage-collection scan over the run objects of an S3 bucket.
 *
 * A cursor (state, last key examined) survives between calls. One call lists pages from the cursor on,
 * crosses from one state to the other at the end of a listing, and stops at `max_scan` objects,
 * `max_results` candidates, or two finished listings.
 */
module S3GcScan {
  import opened Arithmetic
  import opened Prelude
  import opened Artifacts
  import opened Ordering

  const PAGE_LIMIT: nat := 1000

  /** One listed object: the state it is listed under, its full key and its modification time. */
  datatype Entry = Entry(state: ArtifactState, key: string, modified: int)

  /**
   * The run objects of both states, as an unchanged bucket lists them. `served` is how many entries the service puts
   * into its answer to a listing request from a cursor, at most: it may be fewer than were asked for, but not none.
   */
  datatype Listing = Listing(temporary: seq<Entry>, ready: seq<Entry>, served: Cursor -> nat) {
    function Of(state: ArtifactState): seq<Entry> {
      if state.Temporary? then temporary else ready
    }
  }

  datatype Limits = Limits(cutoff: int, maxScan: nat, maxResults: nat)

  datatype Cursor = Cursor(state: ArtifactState, after: Option<string>)

  /** What one call does: the new cursor, the keys it returns, the objects it examined and those it passed over unseen. */
  datatype Outcome = Outcome(cursor: Cursor, candidates: seq<string>, examined: seq<Entry>, skipped: seq<Entry>)

  function Other(state: ArtifactState): ArtifactState {
    if state.Temporary? then Ready else Temporary
  }

  function ObjectPrefix(prefix: string, state: ArtifactState): string {
    (if prefix == "" then "" else prefix + "/") + (if state.Temporary? then "temporary/" else "ready/")
  }

  predicate StartsWith(s: string, prefix: string) { prefix <= s }

  function LogicalKey(prefix: string, state: ArtifactState, objectKey: string): Option<string> {
    var base := ObjectPrefix(prefix, state);
    if !StartsWith(objectKey, base) then None
    else if !StartsWith(objectKey[|base|..], "runs/") then None
    else Some(objectKey[|base|..])
  }

  /** The name of a state in object keys. */
  function StateName(state: ArtifactState): string { if state.Temporary? then "temporary" else "ready" }

  /** The key of an object: the prefix of the bucket, if there is one, the state and the run key, with slashes between. */
  predicate IsObjectKey(prefix: string, state: ArtifactState, objectKey: string, key: string) {
    objectKey == if prefix == "" then StateName(state) + "/" + key else prefix + "/" + StateName(state) + "/" + key
  }

  lemma ObjectKeysArePrefixed(prefix: string, state: ArtifactState, objectKey: string, key: string)
    ensures IsObjectKey(prefix, state, objectKey, key) <==> objectKey == ObjectPrefix(prefix, state) + key
  {
    var name := StateName(state);
    assert name + "/" == if state.Temporary? then "temporary/" else "ready/";
    hide StateName;
    assert "" + (name + "/") == name + "/";
    assert prefix + "/" + name + "/" + key == prefix + "/" + (name + "/") + key;
  }

  lemma StripsPrefix(base: string, objectKey: string, key: string)
    ensures StartsWith(objectKey, base) && objectKey[|base|..] == key <==> objectKey == base + key
  {
    if StartsWith(objectKey, base) {
      assert objectKey == base + objectKey[|base|..];
    }
  }

  /** A logical key is read off an object exactly when the object is stored for that key, and the key is a run key. */
  lemma LogicalKeyExactlyWhen(prefix: string, state: ArtifactState, objectKey: string, key: string)
    ensures LogicalKey(prefix, state, objectKey) == Some(key) <==> "runs/" <= key && IsObjectKey(prefix, state, objectKey, key)
  {
    hide IsObjectKey, ObjectPrefix;
    ObjectKeysArePrefixed(prefix, state, objectKey, key);
    StripsPrefix(ObjectPrefix(prefix, state), objectKey, key);
  }

  ghost predicate Sorted(l: seq<Entry>) {
    forall i, j | 0 <= i < j < |l| :: Less(l[i].key, l[j].key)
  }

  ghost predicate Under(state: ArtifactState, l: seq<Entry>) {
    forall i | 0 <= i < |l| :: l[i].state == state
  }

  /** Each state lists its own objects in key order. */
  ghost predicate ValidListing(listing: Listing) {
    forall state: ArtifactState :: Sorted(listing.Of(state)) && Under(state, listing.Of(state))
  }

  /** The entries whose key is greater than the cursor key. */
  function After(l: seq<Entry>, after: Option<string>): seq<Entry> {
    if l == [] || after.None? || Less(after.value, l[0].key) then l else After(l[1..], after)
  }

  /** The inner loop over one page: the candidates so far and how many entries it consumed. */
  function Examine(prefix: string, state: ArtifactState, page: seq<Entry>, candidates: seq<string>, limits: Limits)
    : (r: (seq<string>, nat))
    ensures r.1 <= |page| && (page != [] ==> r.1 >= 1)
  {
    if page == [] then (candidates, 0)
    else
      var key := LogicalKey(prefix, state, page[0].key);
      if key.Some? && key.value !in candidates && page[0].modified <= limits.cutoff then
        if |candidates| + 1 >= limits.maxResults then (candidates + [key.value], 1)
        else
          var (c, n) := Examine(prefix, state, page[1..], candidates + [key.value], limits);
          (c, n + 1)
      else
        var (c, n) := Examine(prefix, state, page[1..], candidates, limits);
        (c, n + 1)
  }

  /** How many entries an answer to a request for at most `maxKeys` of them holds, if there are that many. */
  function AnswerSize(listing: Listing, cursor: Cursor, maxKeys: nat): nat {
    Min(maxKeys, Max(1, listing.served(cursor)))
  }

  function PageSize(listing: Listing, cursor: Cursor, budget: nat): nat {
    AnswerSize(listing, cursor, Min(budget, PAGE_LIMIT))
  }

  /** The first entries, up to a number. */
  function Upto(rest: seq<Entry>, size: nat): seq<Entry> {
    if |rest| <= size then rest else rest[..size]
  }

  /** The page listed from a cursor. */
  function Page(listing: Listing, cursor: Cursor, budget: nat): seq<Entry> {
    Upto(After(listing.Of(cursor.state), cursor.after), PageSize(listing, cursor, budget))
  }

  /** One iteration of the outer loop: the page it lists, and where it leaves the scan. */
  datatype PageStep = PageStep(cursor: Cursor, candidates: seq<string>, visited: nat, examined: seq<Entry>, skipped: seq<Entry>)

  function ScanPage(prefix: string, listing: Listing, cursor: Cursor, scanned: nat, candidates: seq<string>, visited: nat,
                    limits: Limits): (step: PageStep)
    requires scanned < limits.maxScan
    ensures |step.examined| <= limits.maxScan - scanned
    ensures step.visited > visited || (step.visited == visited && |step.examined| > 0)
  {
    var rest := After(listing.Of(cursor.state), cursor.after);
    var page := Page(listing, cursor, limits.maxScan - scanned);
    var switched := Cursor(Other(cursor.state), None);
    if page == [] then PageStep(switched, candidates, visited + 1, [], [])
    else
      var (c, n) := Examine(prefix, cursor.state, page, candidates, limits);
      if page != rest then
        PageStep(Cursor(cursor.state, Some(page[n - 1].key)), c, visited, page[..n], [])
      else
        PageStep(switched, c, visited + 1, page[..n], page[n..])
  }

  predicate Done(scanned: nat, candidates: seq<string>, visited: nat, limits: Limits) {
    scanned >= limits.maxScan || |candidates| >= limits.maxResults || visited >= 2
  }

  /** The outer loop, from any of its iterations on. */
  function Scan(prefix: string, listing: Listing, cursor: Cursor, scanned: nat, candidates: seq<string>, visited: nat,
                limits: Limits): Outcome
    requires scanned <= limits.maxScan
    decreases 2 - visited, limits.maxScan - scanned
  {
    if Done(scanned, candidates, visited, limits) then Outcome(cursor, candidates, [], [])
    else
      var step := ScanPage(prefix, listing, cursor, scanned, candidates, visited, limits);
      var next := Scan(prefix, listing, step.cursor, scanned + |step.examined|, step.candidates, step.visited, limits);
      Outcome(next.cursor, next.candidates, step.examined + next.examined, step.skipped + next.skipped)
  }

  /** One call of `stale_run_refs`. */
  function Call(prefix: string, listing: Listing, cursor: Cursor, limits: Limits): Outcome {
    Scan(prefix, listing, cursor, 0, [], 0, limits)
  }

  // ----- What one call returns -----

  /** Some object of `examined` has the run key `key` and was listed as old enough. */
  ghost predicate FoundStale(prefix: string, examined: seq<Entry>, key: string, limits: Limits) {
    exists e | e in examined :: LogicalKey(prefix, e.state, e.key) == Some(key) && e.modified <= limits.cutoff
  }

  lemma FoundInEither(prefix: string, first: seq<Entry>, second: seq<Entry>, key: string, limits: Limits)
    ensures FoundStale(prefix, first + second, key, limits)
       <==> FoundStale(prefix, first, key, limits) || FoundStale(prefix, second, key, limits)
  {
    if FoundStale(prefix, first, key, limits) || FoundStale(prefix, second, key, limits) {
      var e :| (e in first || e in second)
               && LogicalKey(prefix, e.state, e.key) == Some(key) && e.modified <= limits.cutoff;
      assert e in first + second;
    }
  }

  /** `candidates` are `before` and the stale keys of `examined`. */
  ghost predicate Collected(prefix: string, before: seq<string>, candidates: seq<string>, examined: seq<Entry>, limits: Limits) {
    forall key :: key in candidates <==> key in before || FoundStale(prefix, examined, key, limits)
  }

  lemma CollectedInTurn(prefix: string, a: seq<string>, b: seq<string>, c: seq<string>, first: seq<Entry>, second: seq<Entry>, limits: Limits)
    requires Collected(prefix, a, b, first, limits) && Collected(prefix, b, c, second, limits)
    ensures Collected(prefix, a, c, first + second, limits)
  {
    forall key
      ensures key in c <==> key in a || FoundStale(prefix, first + second, key, limits)
    {
      FoundInEither(prefix, first, second, key, limits);
    }
  }

  lemma {:induction false} ExamineCollects(prefix: string, state: ArtifactState, page: seq<Entry>, candidates: seq<string>, limits: Limits)
    requires |candidates| < limits.maxResults && Distinct(candidates) && Under(state, page)
    ensures var (c, n) := Examine(prefix, state, page, candidates, limits);
      && Collected(prefix, candidates, c, page[..n], limits)
      && |c| <= limits.maxResults && Distinct(c)
      && (n < |page| ==> |c| == limits.maxResults)
  {
    if page != [] {
      var key := LogicalKey(prefix, state, page[0].key);
      var taken := key.Some? && key.value !in candidates && page[0].modified <= limits.cutoff;
      var grown := if taken then candidates + [key.value] else candidates;
      var (c, n) := Examine(prefix, state, page, candidates, limits);
      var head := page[0];
      forall k
        ensures FoundStale(prefix, [head], k, limits) <==> key == Some(k) && page[0].modified <= limits.cutoff
      {
        assert head in [head];
      }
      assert Collected(prefix, candidates, grown, [head], limits);
      if |grown| < limits.maxResults {
        ExamineCollects(prefix, state, page[1..], grown, limits);
        assert page[..n] == [head] + page[1..][..n - 1];
        CollectedInTurn(prefix, candidates, grown, c, [head], page[1..][..n - 1], limits);
      } else {
        assert page[..n] == [head];
      }
    }
  }

  lemma NothingCollected(prefix: string, candidates: seq<string>, limits: Limits)
    ensures Collected(prefix, candidates, candidates, [], limits)
  {
  }

  lemma PageCollects(prefix: string, listing: Listing, cursor: Cursor, scanned: nat, candidates: seq<string>, visited: nat, limits: Limits)
    requires ValidListing(listing)
    requires scanned < limits.maxScan && |candidates| < limits.maxResults && Distinct(candidates)
    ensures var step := ScanPage(prefix, listing, cursor, scanned, candidates, visited, limits);
      && Collected(prefix, candidates, step.candidates, step.examined, limits)
      && |step.candidates| <= limits.maxResults && Distinct(step.candidates)
      && (step.skipped != [] ==> |step.candidates| == limits.maxResults)
  {
    hide After, Examine, Collected, Distinct, ValidListing, Under, FoundStale;
    NothingCollected(prefix, candidates, limits);
    PageIsUnder(listing, cursor, limits.maxScan - scanned);
    ExamineCollects(prefix, cursor.state, Page(listing, cursor, limits.maxScan - scanned), candidates, limits);
  }

  lemma {:induction false} ScanCollects(prefix: string, listing: Listing, cursor: Cursor, scanned: nat, candidates: seq<string>, visited: nat, limits: Limits)
    requires ValidListing(listing)
    requires scanned <= limits.maxScan && |candidates| <= limits.maxResults && Distinct(candidates)
    ensures var out := Scan(prefix, listing, cursor, scanned, candidates, visited, limits);
      && Collected(prefix, candidates, out.candidates, out.examined, limits)
      && |out.examined| <= limits.maxScan - scanned
      && |out.candidates| <= limits.maxResults && Distinct(out.candidates)
      && (out.skipped != [] ==> |out.candidates| == limits.maxResults)
    decreases 2 - visited, limits.maxScan - scanned
  {
    hide ScanPage;
    if !Done(scanned, candidates, visited, limits) {
      var step := ScanPage(prefix, listing, cursor, scanned, candidates, visited, limits);
      PageCollects(prefix, listing, cursor, scanned, candidates, visited, limits);
      ScanCollects(prefix, listing, step.cursor, scanned + |step.examined|, step.candidates, step.visited, limits);
      var next := Scan(prefix, listing, step.cursor, scanned + |step.examined|, step.candidates, step.visited, limits);
      CollectedInTurn(prefix, candidates, step.candidates, next.candidates, step.examined, next.examined, limits);
    }
  }

  /**
   * One call examines at most `max_scan` objects and returns at most `max_results` distinct keys: exactly
   * the logical keys of the examined objects that were listed as old enough.
   */
  lemma CallIsBounded(prefix: string, listing: Listing, cursor: Cursor, limits: Limits)
    requires ValidListing(listing)
    ensures var out := Call(prefix, listing, cursor, limits);
      && |out.examined| <= limits.maxScan
      && |out.candidates| <= limits.maxResults && Distinct(out.candidates)
      && (forall key :: key in out.candidates <==> FoundStale(prefix, out.examined, key, limits))
      && (out.skipped != [] ==> |out.candidates| == limits.maxResults)
  {
    ScanCollects(prefix, listing, cursor, 0, [], 0, limits);
  }

  /** The keys for which an old enough object was examined, stored as temporary or as ready; and they are run keys. */
  ghost predicate AreStoredKeys(prefix: string, examined: seq<Entry>, limits: Limits, keys: seq<string>) {
    forall key :: key in keys <==>
      "runs/" <= key && exists e | e in examined :: IsObjectKey(prefix, e.state, e.key, key) && e.modified <= limits.cutoff
  }

  /** Exactly such keys are returned. */
  lemma ReturnsStoredKeys(prefix: string, listing: Listing, cursor: Cursor, limits: Limits)
    requires ValidListing(listing)
    ensures var out := Call(prefix, listing, cursor, limits); AreStoredKeys(prefix, out.examined, limits, out.candidates)
  {
    hide LogicalKey, Scan, IsObjectKey;
    CallIsBounded(prefix, listing, cursor, limits);
    var out := Call(prefix, listing, cursor, limits);
    forall e: Entry, key
      ensures LogicalKey(prefix, e.state, e.key) == Some(key) <==> "runs/" <= key && IsObjectKey(prefix, e.state, e.key, key)
    {
      LogicalKeyExactlyWhen(prefix, e.state, e.key, key);
    }
    assert forall key :: key in out.candidates <==> FoundStale(prefix, out.examined, key, limits);
  }

  // ----- Where the scan goes: both listings joined end to end into a ring -----

  function Ring(listing: Listing): seq<Entry> {
    listing.temporary + listing.ready
  }

  function Base(listing: Listing, state: ArtifactState): nat {
    if state.Temporary? then 0 else |listing.temporary|
  }

  function Wrap(size: nat, p: nat): nat { if p == size then 0 else p }

  /** Index in the ring of the object the cursor examines next. */
  function Position(listing: Listing, cursor: Cursor): nat {
    var l := listing.Of(cursor.state);
    Wrap(|Ring(listing)|, Base(listing, cursor.state) + (|l| - AfterLength(l, cursor.after)))
  }

  function AfterLength(l: seq<Entry>, after: Option<string>): (n: nat)
    ensures n <= |l|
  {
    AfterIsSuffix(l, after);
    |After(l, after)|
  }

  lemma {:induction false} AfterIsSuffix(l: seq<Entry>, after: Option<string>)
    ensures |After(l, after)| <= |l| && After(l, after) == l[|l| - |After(l, after)|..]
  {
    if l == [] || after.None? || Less(after.value, l[0].key) {
    } else {
      AfterIsSuffix(l[1..], after);
    }
  }

  lemma {:induction false} AfterOwnKey(l: seq<Entry>, j: nat)
    requires Sorted(l) && j < |l|
    ensures After(l, Some(l[j].key)) == l[j + 1..]
  {
    LessIrreflexive(l[j].key);
    if j == 0 {
      if |l| > 1 {
        assert Less(l[0].key, l[1].key);
      }
      assert After(l, Some(l[0].key)) == After(l[1..], Some(l[0].key));
    } else {
      if Less(l[j].key, l[0].key) {
        LessTransitive(l[j].key, l[0].key, l[j].key);
      }
      AfterOwnKey(l[1..], j - 1);
    }
  }

  /** The next `n` elements of a ring from position `p` on. */
  function Walk<T>(ring: seq<T>, p: nat, n: nat): (w: seq<T>)
    requires n == 0 || p < |ring|
    ensures |w| == n
    decreases n
  {
    if n == 0 then [] else [ring[p]] + Walk(ring, Wrap(|ring|, p + 1), n - 1)
  }

  /** The position `n` elements further on. */
  function Shift(size: nat, p: nat, n: nat): (q: nat)
    requires n == 0 || p < size
    ensures p < size ==> q < size
    decreases n
  {
    if n == 0 then p else Shift(size, Wrap(size, p + 1), n - 1)
  }

  lemma {:induction false} WalkSplits<T>(ring: seq<T>, p: nat, m: nat, n: nat)
    requires m + n == 0 || p < |ring|
    ensures Walk(ring, p, m + n) == Walk(ring, p, m) + Walk(ring, Shift(|ring|, p, m), n)
    ensures Shift(|ring|, p, m + n) == Shift(|ring|, Shift(|ring|, p, m), n)
    decreases m
  {
    if m > 0 {
      var q := Wrap(|ring|, p + 1);
      WalkSplits(ring, q, m - 1, n);
      var first, second := Walk(ring, q, m - 1), Walk(ring, Shift(|ring|, q, m - 1), n);
      assert m + n - 1 == m - 1 + n;
      assert [ring[p]] + (first + second) == [ring[p]] + first + second;
    }
  }

  lemma {:induction false} WalkIsSlice<T>(ring: seq<T>, p: nat, n: nat)
    requires p + n <= |ring| && (n == 0 ==> p < |ring|)
    ensures Walk(ring, p, n) == ring[p..p + n]
    ensures Shift(|ring|, p, n) == Wrap(|ring|, p + n)
    decreases n
  {
    if n > 1 {
      WalkIsSlice(ring, p + 1, n - 1);
    }
  }

  /** A whole turn meets every element. */
  lemma WalkCovers<T>(ring: seq<T>, p: nat, n: nat, i: nat)
    requires p < |ring| <= n && i < |ring|
    ensures ring[i] in Walk(ring, p, n)
  {
    var size := |ring|;
    hide Walk;
    WalkSplits(ring, p, size - p, n - (size - p));
    WalkIsSlice(ring, p, size - p);
    if i < p {
      WalkSplits(ring, 0, p, n - size);
      WalkIsSlice(ring, 0, p);
      assert ring[i] == Walk(ring, 0, p)[i];
    } else {
      assert ring[i] == ring[p..size][i - p];
    }
  }

  /** `walked` is the stretch of the ring between two cursors. */
  ghost predicate Follows(listing: Listing, cursor: Cursor, walked: seq<Entry>, cursor': Cursor) {
    var p := Position(listing, cursor);
    && (walked != [] ==> p < |Ring(listing)|)
    && walked == Walk(Ring(listing), p, |walked|)
    && Position(listing, cursor') == Shift(|Ring(listing)|, p, |walked|)
  }

  lemma FollowsInTurn(listing: Listing, a: Cursor, first: seq<Entry>, b: Cursor, second: seq<Entry>, c: Cursor)
    requires Follows(listing, a, first, b) && Follows(listing, b, second, c)
    ensures Follows(listing, a, first + second, c)
  {
    if first != [] {
      WalkSplits(Ring(listing), Position(listing, a), |first|, |second|);
    }
  }

  lemma SliceOfRing(listing: Listing, state: ArtifactState, o: nat, k: nat)
    requires o + k <= |listing.Of(state)|
    ensures var at := Base(listing, state) + o;
      at + k <= |Ring(listing)| && listing.Of(state)[o..o + k] == Ring(listing)[at..at + k]
  {
  }

  /** A cursor on the object at offset `j` continues at offset `j + 1`. */
  lemma PositionAfterKey(listing: Listing, state: ArtifactState, j: nat)
    requires ValidListing(listing) && j < |listing.Of(state)|
    ensures Position(listing, Cursor(state, Some(listing.Of(state)[j].key)))
         == Wrap(|Ring(listing)|, Base(listing, state) + j + 1)
  {
    AfterOwnKey(listing.Of(state), j);
  }

  lemma SliceFollows(listing: Listing, cursor: Cursor, k: nat, cursor': Cursor)
    requires ValidListing(listing)
    requires var rest := After(listing.Of(cursor.state), cursor.after);
      && 0 < k <= |rest| <= |listing.Of(cursor.state)|
      && Position(listing, cursor')
         == Wrap(|Ring(listing)|, Base(listing, cursor.state) + (|listing.Of(cursor.state)| - |rest|) + k)
    ensures Follows(listing, cursor, After(listing.Of(cursor.state), cursor.after)[..k], cursor')
  {
    var l := listing.Of(cursor.state);
    var rest := After(l, cursor.after);
    AfterIsSuffix(l, cursor.after);
    hide After, ValidListing;
    var o := |l| - |rest|;
    assert l[o..o + k] == rest[..k];
    SliceOfRing(listing, cursor.state, o, k);
    WalkIsSlice(Ring(listing), Base(listing, cursor.state) + o, k);
  }

  lemma PartOfPageFollows(listing: Listing, cursor: Cursor, n: nat)
    requires ValidListing(listing) && 0 < n <= |After(listing.Of(cursor.state), cursor.after)|
    ensures var rest := After(listing.Of(cursor.state), cursor.after);
      Follows(listing, cursor, rest[..n], Cursor(cursor.state, Some(rest[n - 1].key)))
  {
    hide After, ValidListing, Follows, Position;
    var l := listing.Of(cursor.state);
    var rest := After(l, cursor.after);
    AfterIsSuffix(l, cursor.after);
    assert rest[n - 1] == l[|l| - |rest| + n - 1];
    PositionAfterKey(listing, cursor.state, |l| - |rest| + n - 1);
    SliceFollows(listing, cursor, n, Cursor(cursor.state, Some(rest[n - 1].key)));
  }

  lemma WholePageFollows(listing: Listing, cursor: Cursor)
    requires ValidListing(listing)
    ensures Follows(listing, cursor, After(listing.Of(cursor.state), cursor.after), Cursor(Other(cursor.state), None))
  {
    var l := listing.Of(cursor.state);
    var rest := After(l, cursor.after);
    AfterIsSuffix(l, cursor.after);
    assert AfterLength(listing.Of(Other(cursor.state)), None) == |listing.Of(Other(cursor.state))|;
    if rest != [] {
      SliceFollows(listing, cursor, |rest|, Cursor(Other(cursor.state), None));
      assert rest[..|rest|] == rest;
    }
  }

  lemma PageFollowsRing(prefix: string, listing: Listing, cursor: Cursor, scanned: nat, candidates: seq<string>, visited: nat, limits: Limits)
    requires ValidListing(listing) && scanned < limits.maxScan
    ensures var step := ScanPage(prefix, listing, cursor, scanned, candidates, visited, limits);
            Follows(listing, cursor, step.examined + step.skipped, step.cursor)
  {
    hide After, ValidListing, Follows, Examine;
    var rest := After(listing.Of(cursor.state), cursor.after);
    var page := Page(listing, cursor, limits.maxScan - scanned);
    WholePageFollows(listing, cursor);
    if page != [] {
      var n := Examine(prefix, cursor.state, page, candidates, limits).1;
      PartOfPageFollows(listing, cursor, n);
      assert page[..n] == rest[..n];
      assert page[..n] + [] == page[..n];
      assert page[..n] + page[n..] == page;
    } else {
      assert rest + [] == rest;
    }
  }

  lemma Regroup<T>(a: seq<T>, b: seq<T>, c: seq<T>, d: seq<T>)
    requires b == [] || c == []
    ensures (a + c) + (b + d) == (a + b) + (c + d)
  {
  }

  lemma FollowsNothing(listing: Listing, cursor: Cursor)
    ensures Follows(listing, cursor, [] + [], cursor)
  {
  }

  lemma {:induction false} ScanFollowsRing(prefix: string, listing: Listing, cursor: Cursor, scanned: nat, candidates: seq<string>, visited: nat, limits: Limits)
    requires ValidListing(listing)
    requires scanned <= limits.maxScan && |candidates| <= limits.maxResults && Distinct(candidates)
    ensures var out := Scan(prefix, listing, cursor, scanned, candidates, visited, limits);
            Follows(listing, cursor, out.examined + out.skipped, out.cursor)
    decreases 2 - visited, limits.maxScan - scanned
  {
    hide ScanPage, ValidListing, Distinct, Collected, Follows;
    FollowsNothing(listing, cursor);
    if !Done(scanned, candidates, visited, limits) {
      var step := ScanPage(prefix, listing, cursor, scanned, candidates, visited, limits);
      PageFollowsRing(prefix, listing, cursor, scanned, candidates, visited, limits);
      PageCollects(prefix, listing, cursor, scanned, candidates, visited, limits);
      ScanFollowsRing(prefix, listing, step.cursor, scanned + |step.examined|, step.candidates, step.visited, limits);
      var next := Scan(prefix, listing, step.cursor, scanned + |step.examined|, step.candidates, step.visited, limits);
      var first, second := step.examined + step.skipped, next.examined + next.skipped;
      FollowsInTurn(listing, cursor, first, step.cursor, second, next.cursor);
      Regroup(step.examined, step.skipped, next.examined, next.skipped);
    }
  }

  /**
   * Over an unchanged bucket one call works through consecutive objects of the ring, in key order and
   * from where the last call stopped; anything it skips it skips at the end.
   */
  lemma CallFollowsRing(prefix: string, listing: Listing, cursor: Cursor, limits: Limits)
    requires ValidListing(listing)
    ensures var out := Call(prefix, listing, cursor, limits);
            Follows(listing, cursor, out.examined + out.skipped, out.cursor)
  {
    ScanFollowsRing(prefix, listing, cursor, 0, [], 0, limits);
  }

  // ----- How far one call gets -----

  /** Objects from the cursor to the end of its listing. */
  function Left(listing: Listing, cursor: Cursor): nat {
    AfterLength(listing.Of(cursor.state), cursor.after)
  }

  /** Objects of its listing the cursor has already passed. */
  function Passed(listing: Listing, cursor: Cursor): nat {
    |listing.Of(cursor.state)| - Left(listing, cursor)
  }

  /** Objects a call can still reach: the rest of this listing, and the whole other one unless visited already. */
  function Reach(listing: Listing, cursor: Cursor, visited: nat): nat {
    if visited == 0 then Left(listing, cursor) + |listing.Of(Other(cursor.state))|
    else if visited == 1 then Left(listing, cursor)
    else 0
  }

  /** The cursor after the next `n` objects of its listing. */
  function Further(listing: Listing, cursor: Cursor, n: nat): Cursor
    requires 0 < n <= Left(listing, cursor)
  {
    Cursor(cursor.state, Some(After(listing.Of(cursor.state), cursor.after)[n - 1].key))
  }

  lemma PageIsUnder(listing: Listing, cursor: Cursor, budget: nat)
    requires ValidListing(listing)
    ensures Under(cursor.state, Page(listing, cursor, budget))
  {
    AfterIsSuffix(listing.Of(cursor.state), cursor.after);
  }

  lemma LengthIsLeft(listing: Listing, cursor: Cursor)
    ensures |After(listing.Of(cursor.state), cursor.after)| == Left(listing, cursor)
    ensures cursor.after.None? ==> Left(listing, cursor) == |listing.Of(cursor.state)|
  {
  }

  lemma PageReach(prefix: string, listing: Listing, cursor: Cursor, scanned: nat, candidates: seq<string>, visited: nat, limits: Limits)
    requires ValidListing(listing) && scanned < limits.maxScan && visited < 2
    requires |candidates| < limits.maxResults && Distinct(candidates)
    ensures var step := ScanPage(prefix, listing, cursor, scanned, candidates, visited, limits);
            var left, size := Left(listing, cursor), PageSize(listing, cursor, limits.maxScan - scanned);
      && 0 < size <= limits.maxScan - scanned
      && (step.visited == visited ==> left == |step.examined| + Left(listing, step.cursor) && step.cursor.state == cursor.state
                                      && step.skipped == [] && left > size >= |step.examined|
                                      && (|step.candidates| < limits.maxResults ==>
                                            |step.examined| == size && step.cursor == Further(listing, cursor, size)))
      && (step.visited != visited ==> step.visited == visited + 1 && step.cursor == Cursor(Other(cursor.state), None)
                                      && Left(listing, step.cursor) == |listing.Of(Other(cursor.state))|
                                      && |step.examined| + |step.skipped| == left && left <= size
                                      && (left > 0 ==> |step.examined| > 0))
  {
    hide After, Examine, Collected, Distinct, ValidListing, AfterLength;
    var rest, page := After(listing.Of(cursor.state), cursor.after), Page(listing, cursor, limits.maxScan - scanned);
    var (c, n) := Examine(prefix, cursor.state, page, candidates, limits);
    PageIsUnder(listing, cursor, limits.maxScan - scanned);
    LengthIsLeft(listing, cursor);
    LengthIsLeft(listing, Cursor(Other(cursor.state), None));
    ExamineCollects(prefix, cursor.state, page, candidates, limits);
    if page != [] && page != rest {
      LeftFurther(listing, cursor, n);
    }
  }

  lemma {:induction false} ScanReach(prefix: string, listing: Listing, cursor: Cursor, scanned: nat, candidates: seq<string>, visited: nat, limits: Limits)
    requires ValidListing(listing) && visited <= 2
    requires scanned <= limits.maxScan && |candidates| <= limits.maxResults && Distinct(candidates)
    ensures var out := Scan(prefix, listing, cursor, scanned, candidates, visited, limits);
      Passed(listing, out.cursor) <= Passed(listing, cursor) + |out.examined|
    ensures var out := Scan(prefix, listing, cursor, scanned, candidates, visited, limits);
      |out.candidates| < limits.maxResults ==>
        && |out.examined| == Min(limits.maxScan - scanned, Reach(listing, cursor, visited))
        && (limits.maxScan - scanned > Reach(listing, cursor, visited) ==>
              out.cursor == (if visited == 0 then Cursor(cursor.state, None)
                             else if visited == 1 then Cursor(Other(cursor.state), None)
                             else cursor))
    decreases 2 - visited, limits.maxScan - scanned
  {
    hide ScanPage, After;
    ScanCollects(prefix, listing, cursor, scanned, candidates, visited, limits);
    if !Done(scanned, candidates, visited, limits) {
      var step := ScanPage(prefix, listing, cursor, scanned, candidates, visited, limits);
      PageCollects(prefix, listing, cursor, scanned, candidates, visited, limits);
      PageReach(prefix, listing, cursor, scanned, candidates, visited, limits);
      ScanReach(prefix, listing, step.cursor, scanned + |step.examined|, step.candidates, step.visited, limits);
    }
  }

  // ----- When a call skips objects -----

  /** The limit falls inside a last page of the listing the cursor is in, or of the one after it, within the budget. */
  predicate StopsInsideLastPage(listing: Listing, cursor: Cursor, budget: nat, visited: nat, examined: nat)
    decreases 2 - visited, budget
  {
    if visited >= 2 || budget == 0 || examined == 0 then false
    else
      var left, size := Left(listing, cursor), PageSize(listing, cursor, budget);
      if left > size then
        examined > size && StopsInsideLastPage(listing, Further(listing, cursor, size), budget - size, visited, examined - size)
      else if examined > left then
        StopsInsideLastPage(listing, Cursor(Other(cursor.state), None), budget - left, visited + 1, examined - left)
      else examined < left
  }

  lemma {:induction false} ScanSkips(prefix: string, listing: Listing, cursor: Cursor, scanned: nat, candidates: seq<string>, visited: nat, limits: Limits)
    requires ValidListing(listing) && visited <= 2
    requires scanned <= limits.maxScan && |candidates| <= limits.maxResults && Distinct(candidates)
    ensures var out := Scan(prefix, listing, cursor, scanned, candidates, visited, limits);
      out.skipped != [] <==>
        && visited < 2 && |candidates| < limits.maxResults && |out.candidates| == limits.maxResults
        && StopsInsideLastPage(listing, cursor, limits.maxScan - scanned, visited, |out.examined|)
    decreases 2 - visited, limits.maxScan - scanned
  {
    hide ScanPage, After, ValidListing, Distinct, Collected, Left, PageSize, Further;
    if !Done(scanned, candidates, visited, limits) {
      var step := ScanPage(prefix, listing, cursor, scanned, candidates, visited, limits);
      PageCollects(prefix, listing, cursor, scanned, candidates, visited, limits);
      PageReach(prefix, listing, cursor, scanned, candidates, visited, limits);
      ScanSkips(prefix, listing, step.cursor, scanned + |step.examined|, step.candidates, step.visited, limits);
      ScanCollects(prefix, listing, step.cursor, scanned + |step.examined|, step.candidates, step.visited, limits);
    }
  }

  /** The `e`-th of `m` listed objects lies on the last page of the listing and is not its last object. */
  predicate InsideLastPage(e: nat, m: nat) {
    (m - 1) / PAGE_LIMIT * PAGE_LIMIT < e < m
  }

  /** The same, when all pages but the last of a listing hold `PAGE_LIMIT` entries. */
  predicate StopsInsideLastFullPage(listing: Listing, cursor: Cursor, budget: nat, visited: nat, examined: nat) {
    var m := Left(listing, cursor);
    if examined <= m then m <= budget && InsideLastPage(examined, m)
    else visited == 0 && Reach(listing, cursor, 0) <= budget && InsideLastPage(examined - m, |listing.Of(Other(cursor.state))|)
  }

  lemma InsideLastPageCases(e: int, m: nat)
    ensures e <= 0 || e == m ==> !(e >= 0 && InsideLastPage(e, m))
    ensures 0 < e < m <= PAGE_LIMIT ==> InsideLastPage(e, m)
    ensures 0 <= e <= PAGE_LIMIT < m ==> !InsideLastPage(e, m)
    ensures PAGE_LIMIT <= e && PAGE_LIMIT < m ==> InsideLastPage(e, m) == InsideLastPage(e - PAGE_LIMIT, m - PAGE_LIMIT)
  {
  }

  /** A page that is not the last one moves the cursor on and changes nothing else. */
  lemma StopsAfterPage(listing: Listing, cursor: Cursor, cursor': Cursor, budget: nat, visited: nat, examined: nat)
    requires cursor'.state == cursor.state && Left(listing, cursor) == PAGE_LIMIT + Left(listing, cursor') && Left(listing, cursor') > 0
    requires PAGE_LIMIT <= examined && PAGE_LIMIT <= budget
    ensures StopsInsideLastFullPage(listing, cursor, budget, visited, examined)
       <==> StopsInsideLastFullPage(listing, cursor', budget - PAGE_LIMIT, visited, examined - PAGE_LIMIT)
  {
    hide AfterLength;
    InsideLastPageCases(examined, Left(listing, cursor));
  }

  lemma NeverStopsBeforeLastPage(listing: Listing, cursor: Cursor, budget: nat, visited: nat, examined: nat)
    requires examined <= Min(PAGE_LIMIT, budget) < Left(listing, cursor)
    ensures !StopsInsideLastFullPage(listing, cursor, budget, visited, examined)
  {
    hide AfterLength;
    InsideLastPageCases(examined, Left(listing, cursor));
  }

  /** On the last page of a listing, stopping before its end leaves a gap. */
  lemma StopsOnLastPage(listing: Listing, cursor: Cursor, budget: nat, visited: nat, examined: nat)
    requires examined <= Left(listing, cursor) <= Min(PAGE_LIMIT, budget) && (Left(listing, cursor) > 0 ==> examined > 0)
    ensures StopsInsideLastFullPage(listing, cursor, budget, visited, examined) <==> examined < Left(listing, cursor)
  {
    hide AfterLength;
    InsideLastPageCases(examined, Left(listing, cursor));
  }

  /** The end of one listing leads to the start of the other. */
  lemma StopsAfterListing(listing: Listing, cursor: Cursor, budget: nat, examined: nat)
    requires Left(listing, cursor) <= Min(PAGE_LIMIT, budget) && Left(listing, cursor) <= examined
    ensures var other := Cursor(Other(cursor.state), None);
      StopsInsideLastFullPage(listing, cursor, budget, 0, examined) ==
      StopsInsideLastFullPage(listing, other, budget - Left(listing, cursor), 1, examined - Left(listing, cursor))
  {
    var other := Cursor(Other(cursor.state), None);
    assert Left(listing, other) == |listing.Of(other.state)|;
    hide AfterLength;
    InsideLastPageCases(examined, Left(listing, cursor));
    InsideLastPageCases(examined - Left(listing, cursor), Left(listing, other));
  }

  lemma NothingStopsAtOnce(listing: Listing, cursor: Cursor, budget: nat, visited: nat, examined: nat)
    requires budget == 0 || examined == 0
    ensures !StopsInsideLastFullPage(listing, cursor, budget, visited, examined)
  {
  }

  lemma LeftFurther(listing: Listing, cursor: Cursor, n: nat)
    requires ValidListing(listing) && 0 < n <= Left(listing, cursor)
    ensures Left(listing, Further(listing, cursor, n)) == Left(listing, cursor) - n
  {
    var l := listing.Of(cursor.state);
    AfterIsSuffix(l, cursor.after);
    AfterOwnKey(l, |l| - Left(listing, cursor) + n - 1);
  }

  ghost predicate FillsPages(listing: Listing) { forall c :: listing.served(c) >= PAGE_LIMIT }

  /** A listing request asks for at most a thousand objects, and for no more than the budget; the answer may hold fewer. */
  lemma PagesHoldAThousand(listing: Listing, cursor: Cursor, budget: nat)
    ensures var page, left := Page(listing, cursor, budget), Left(listing, cursor);
      && |page| <= 1000 && |page| <= budget && page <= After(listing.Of(cursor.state), cursor.after)
      && (budget > 0 && left > 0 ==> page != [])
      && (listing.served(cursor) >= 1000 ==> |page| == Min(left, Min(budget, 1000)))
  {
    LengthIsLeft(listing, cursor);
  }

  /** When the service fills its pages, the last page of a listing begins at a multiple of `PAGE_LIMIT` from the cursor. */
  lemma {:induction false} FullPagesStop(listing: Listing, cursor: Cursor, budget: nat, visited: nat, examined: nat)
    requires ValidListing(listing) && visited < 2 && FillsPages(listing)
    ensures StopsInsideLastPage(listing, cursor, budget, visited, examined)
       <==> StopsInsideLastFullPage(listing, cursor, budget, visited, examined)
    decreases 2 - visited, budget
  {
    hide After, ValidListing, AfterLength, InsideLastPage;
    var left, size := Left(listing, cursor), PageSize(listing, cursor, budget);
    if budget == 0 || examined == 0 {
      NothingStopsAtOnce(listing, cursor, budget, visited, examined);
    } else if left > size {
      LeftFurther(listing, cursor, size);
      if examined <= size {
        NeverStopsBeforeLastPage(listing, cursor, budget, visited, examined);
      } else if size == PAGE_LIMIT {
        StopsAfterPage(listing, cursor, Further(listing, cursor, size), budget, visited, examined);
        FullPagesStop(listing, Further(listing, cursor, size), budget - size, visited, examined - size);
      }
    } else if examined <= left {
      StopsOnLastPage(listing, cursor, budget, visited, examined);
    } else if visited == 0 {
      StopsAfterListing(listing, cursor, budget, examined);
      FullPagesStop(listing, Cursor(Other(cursor.state), None), budget - left, 1, examined - left);
    }
  }

  // ----- Many calls on an unchanged bucket -----

  /** The cursor after `n` calls. */
  function CursorAfter(prefix: string, listing: Listing, cursor: Cursor, limits: Limits, n: nat): Cursor
    decreases n
  {
    if n == 0 then cursor
    else CursorAfter(prefix, listing, Call(prefix, listing, cursor, limits).cursor, limits, n - 1)
  }

  /** Everything `n` calls examine, in order. */
  function ExaminedBy(prefix: string, listing: Listing, cursor: Cursor, limits: Limits, n: nat): seq<Entry>
    decreases n
  {
    if n == 0 then []
    else
      var out := Call(prefix, listing, cursor, limits);
      out.examined + ExaminedBy(prefix, listing, out.cursor, limits, n - 1)
  }

  /** How far a call moves the cursor, and how much it examines unless its result fills up. */
  lemma CallReach(prefix: string, listing: Listing, cursor: Cursor, limits: Limits)
    requires ValidListing(listing)
    ensures var out := Call(prefix, listing, cursor, limits);
            var size := |Ring(listing)|;
      && Passed(listing, out.cursor) <= Passed(listing, cursor) + |out.examined|
      && (|out.candidates| < limits.maxResults ==>
            && |out.examined| == Min(limits.maxScan, size - Passed(listing, cursor))
            && (|out.examined| < limits.maxScan ==> Passed(listing, out.cursor) == 0))
  {
    var out := Call(prefix, listing, cursor, limits);
    ScanReach(prefix, listing, cursor, 0, [], 0, limits);
  }

  // ----- Starvation -----

  /** The first `k` objects are old, and their keys are run keys. */
  predicate AllStale(prefix: string, l: seq<Entry>, limits: Limits, k: nat)
    requires k <= |l|
  {
    forall i | 0 <= i < k :: LogicalKey(prefix, l[i].state, l[i].key).Some? && l[i].modified <= limits.cutoff
  }

  lemma {:induction false} ExamineFillsUp(prefix: string, state: ArtifactState, page: seq<Entry>, candidates: seq<string>, limits: Limits)
    requires Sorted(page) && Under(state, page)
    requires |candidates| < limits.maxResults <= |candidates| + |page|
    requires AllStale(prefix, page, limits, limits.maxResults - |candidates|)
    requires forall i | 0 <= i < |page| :: LogicalKey(prefix, state, page[i].key).Some? ==>
                                             LogicalKey(prefix, state, page[i].key).value !in candidates
    ensures var (c, n) := Examine(prefix, state, page, candidates, limits);
      |c| == limits.maxResults && n == limits.maxResults - |candidates|
  {
    var grown := candidates + [LogicalKey(prefix, state, page[0].key).value];
    if |grown| < limits.maxResults {
      forall i | 0 <= i < |page[1..]| && LogicalKey(prefix, state, page[1..][i].key).Some?
        ensures LogicalKey(prefix, state, page[1..][i].key).value !in grown
      {
        assert page[1..][i] == page[i + 1] && Less(page[0].key, page[i + 1].key);
        LessIrreflexive(page[0].key);
        if LogicalKey(prefix, state, page[0].key) == LogicalKey(prefix, state, page[i + 1].key) {
          SameLogicalKey(prefix, state, page[0].key, page[i + 1].key);
        }
      }
      ExamineFillsUp(prefix, state, page[1..], grown, limits);
    }
  }

  lemma SameLogicalKey(prefix: string, state: ArtifactState, a: string, b: string)
    requires LogicalKey(prefix, state, a).Some? && LogicalKey(prefix, state, a) == LogicalKey(prefix, state, b)
    ensures a == b
  {
    var base := ObjectPrefix(prefix, state);
    assert a == base + a[|base|..] && b == base + b[|base|..];
  }

  /**
   * The gap is not harmless. When only ready objects exist, all within one page and one budget, and the
   * first `max_results` of them are old, every call from a fresh cursor returns those same keys and comes
   * back to where it began: as long as they are not deleted, no later object is ever examined.
   */
  lemma {:induction false} LaterObjectsStarve(prefix: string, listing: Listing, limits: Limits, n: nat)
    requires ValidListing(listing) && listing.temporary == []
    requires 0 < limits.maxResults < |listing.ready| <= PageSize(listing, Cursor(Ready, None), limits.maxScan)
    requires AllStale(prefix, listing.ready, limits, limits.maxResults)
    ensures var start := Cursor(Temporary, None);
      && CursorAfter(prefix, listing, start, limits, n) == start
      && (forall e :: e in ExaminedBy(prefix, listing, start, limits, n) ==> e in listing.ready[..limits.maxResults])
      && (n > 0 ==> Call(prefix, listing, start, limits).skipped == listing.ready[limits.maxResults..])
    decreases n
  {
    var start := Cursor(Temporary, None);
    if n > 0 {
      OneStarvingCall(prefix, listing, limits);
      LaterObjectsStarve(prefix, listing, limits, n - 1);
    }
  }

  lemma OneStarvingCall(prefix: string, listing: Listing, limits: Limits)
    requires ValidListing(listing) && listing.temporary == []
    requires 0 < limits.maxResults < |listing.ready| <= PageSize(listing, Cursor(Ready, None), limits.maxScan)
    requires AllStale(prefix, listing.ready, limits, limits.maxResults)
    ensures var out := Call(prefix, listing, Cursor(Temporary, None), limits);
      && out.cursor == Cursor(Temporary, None)
      && out.examined == listing.ready[..limits.maxResults]
      && out.skipped == listing.ready[limits.maxResults..]
  {
    var page := Page(listing, Cursor(Ready, None), limits.maxScan);
    assert listing.Of(Ready) == listing.ready && listing.Of(Temporary) == [];
    assert page == listing.ready;
    ExamineFillsUp(prefix, Ready, page, [], limits);
    var start := Cursor(Temporary, None);
    assert ScanPage(prefix, listing, start, 0, [], 0, limits) == PageStep(Cursor(Ready, None), [], 1, [], []);
    var step := ScanPage(prefix, listing, Cursor(Ready, None), 0, [], 1, limits);
    assert step == PageStep(start, step.candidates, 2, page[..limits.maxResults], page[limits.maxResults..]);
    assert Scan(prefix, listing, step.cursor, |step.examined|, step.candidates, 2, limits) == Outcome(start, step.candidates, [], []);
    assert Scan(prefix, listing, Cursor(Ready, None), 0, [], 1, limits) == Outcome(start, step.candidates, step.examined, step.skipped);
  }

  // ----- The adapter -----

  datatype ScanError = LimitsOutOfBounds

  class S3RunScanner {
    const prefix: string
    /** The run objects the bucket holds, as its listing requests report them. */
    var bucket: Listing
    var gcScanState: ArtifactState
    var gcStartAfter: map<ArtifactState, Option<string>>

    /** Only the state being scanned has a cursor key. */
    predicate Valid()
      reads this
    {
      && gcStartAfter.Keys == {Temporary, Ready}
      && gcStartAfter[Other(gcScanState)] == None
    }

    function CurrentCursor(): Cursor
      requires Valid()
      reads this
    {
      Cursor(gcScanState, gcStartAfter[gcScanState])
    }

    constructor (prefix: string, bucket: Listing)
      ensures Valid() && CurrentCursor() == Cursor(Temporary, None)
      ensures this.prefix == prefix && this.bucket == bucket
    {
      this.prefix, this.bucket := prefix, bucket;
      gcScanState := Temporary;
      gcStartAfter := map[Temporary := None, Ready := None];
    }

    method ListRunObjects(state: ArtifactState, startAfter: Option<string>, maxKeys: nat)
      returns (page: seq<Entry>, isTruncated: bool)
      ensures var rest := After(bucket.Of(state), startAfter);
        && page <= rest && |page| <= maxKeys && isTruncated == (page != rest)
        && (page == [] ==> rest == [] || maxKeys == 0)
        && page == Upto(rest, AnswerSize(bucket, Cursor(state, startAfter), maxKeys))
    {
      var rest := After(bucket.Of(state), startAfter);
      page := Upto(rest, AnswerSize(bucket, Cursor(state, startAfter), maxKeys));
      isTruncated := |page| < |rest|;
    }

    method FinishListing()
      requires Valid()
      modifies this`gcScanState, this`gcStartAfter
      ensures Valid() && CurrentCursor() == Cursor(Other(old(gcScanState)), None)
    {
      gcStartAfter := gcStartAfter[gcScanState := None];
      gcScanState := Other(gcScanState);
    }

    /** The inner loop: examine one page entry by entry, moving the cursor along. */
    method ExaminePage(page: seq<Entry>, found: seq<string>, scanned: nat, limits: Limits)
      returns (candidates: seq<string>, consumed: nat)
      requires Valid() && page != [] && scanned + |page| <= limits.maxScan
      modifies this`gcStartAfter
      ensures (candidates, consumed) == Examine(prefix, gcScanState, page, found, limits)
      ensures Valid() && CurrentCursor() == Cursor(gcScanState, Some(page[consumed - 1].key))
    {
      candidates, consumed := found, 0;
      while consumed < |page|
        invariant Valid() && consumed <= |page|
        invariant consumed > 0 ==> gcStartAfter[gcScanState] == Some(page[consumed - 1].key)
        invariant var (c, n) := Examine(prefix, gcScanState, page[consumed..], candidates, limits);
                  (c, consumed + n) == Examine(prefix, gcScanState, page, found, limits)
      {
        var entry := page[consumed];
        consumed := consumed + 1;
        gcStartAfter := gcStartAfter[gcScanState := Some(entry.key)];
        var key := LogicalKey(prefix, gcScanState, entry.key);
        if key.Some? && key.value !in candidates {
          if entry.modified <= limits.cutoff {
            candidates := candidates + [key.value];
            if |candidates| >= limits.maxResults || scanned + consumed >= limits.maxScan {
              assert scanned + consumed >= limits.maxScan ==> page[consumed..] == [];
              return;
            }
          }
        }
      }
    }

    /** One iteration of the outer loop. */
    method ScanNextPage(found: seq<string>, scanned: nat, visited: nat, limits: Limits)
      returns (candidates: seq<string>, scanned': nat, visited': nat)
      requires Valid() && scanned < limits.maxScan
      modifies this`gcScanState, this`gcStartAfter
      ensures Valid()
      ensures var step := ScanPage(prefix, bucket, old(CurrentCursor()), scanned, found, visited, limits);
        (CurrentCursor(), candidates, scanned', visited') == (step.cursor, step.candidates, scanned + |step.examined|, step.visited)
    {
      candidates, scanned', visited' := found, scanned, visited;
      var budget := limits.maxScan - scanned;
      var page, isTruncated := ListRunObjects(gcScanState, gcStartAfter[gcScanState],
                                              Min(budget, PAGE_LIMIT));
      if page == [] {
        FinishListing();
        visited' := visited + 1;
        return;
      }
      var consumed;
      candidates, consumed := ExaminePage(page, found, scanned, limits);
      scanned' := scanned + consumed;
      if !isTruncated {
        FinishListing();
        visited' := visited + 1;
      }
    }

    /** `stale_run_refs` as written does what the scan specification says, and moves the cursor accordingly. */
    method StaleRunRefs(limits: Limits) returns (r: Result<seq<string>, ScanError>)
      requires Valid()
      modifies this`gcScanState, this`gcStartAfter
      ensures Valid()
      ensures r.Err? <==> !(1 <= limits.maxResults <= 500 && 1 <= limits.maxScan <= 100_000)
      ensures r.Err? ==> CurrentCursor() == old(CurrentCursor())
      ensures r.Ok? ==> var out := Call(prefix, bucket, old(CurrentCursor()), limits);
                        && r.value == out.candidates && CurrentCursor() == out.cursor
                        && (ValidListing(bucket) ==> AreStoredKeys(prefix, out.examined, limits, r.value))
    {
      hide ScanPage, AreStoredKeys;
      if !(1 <= limits.maxResults <= 500 && 1 <= limits.maxScan <= 100_000) {
        return Err(LimitsOutOfBounds);
      }
      var candidates: seq<string>, scanned: nat, visited: nat := [], 0, 0;
      ghost var all := Call(prefix, bucket, CurrentCursor(), limits);
      while scanned < limits.maxScan && |candidates| < limits.maxResults && visited < 2
        invariant Valid() && scanned <= limits.maxScan
        invariant var rest := Scan(prefix, bucket, CurrentCursor(), scanned, candidates, visited, limits);
                  rest.candidates == all.candidates && rest.cursor == all.cursor
        decreases 2 - visited, limits.maxScan - scanned
      {
        candidates, scanned, visited := ScanNextPage(candidates, scanned, visited, limits);
      }
      if ValidListing(bucket) {
        ReturnsStoredKeys(prefix, bucket, old(CurrentCursor()), limits);
      }
      r := Ok(candidates);
    }
  }
}
