/**
 * The resumable garbage-collection scan over the local store's run directories.
 *
 * A generator yields one item per directory entry; the adapter keeps it between calls, so that each call
 * continues where the last one stopped, within `max_scan` entries and `max_results` candidates.
 */
module LocalGcScan {
  import opened Arithmetic
  import opened Prelude

  // ----- The generator: a worklist walk over directories -----

  /** A directory entry. Symbolic links are never followed; `Special` is neither file nor directory. */
  datatype Node = Symlink | Special | File(name: string, modified: int) | Dir(name: string, entries: seq<Node>)

  /** A directory waiting to be scanned, with its path relative to the namespace root. */
  datatype Directory = Directory(path: string, entries: seq<Node>)

  /** A namespace root: its `runs` directory, if any, and whether it holds sidecars. */
  datatype Root = Root(runs: Option<seq<Node>>, isMetadata: bool)

  predicate EndsWith(s: string, suffix: string) {
    |suffix| <= |s| && s[|s| - |suffix|..] == suffix
  }

  /** What one entry yields: a run key, or nothing of interest. */
  function ItemOf(path: string, node: Node, isMetadata: bool): Option<string> {
    match node
    case File(name, _) =>
      var relative := path + "/" + name;
      if isMetadata && !EndsWith(relative, ".json") then None
      else
        var key := if isMetadata then relative[..|relative| - 5] else relative;
        if EndsWith(key, ".tmp") then None else Some(key)
    case _ => None
  }

  /** The directory a node stands for, if any, waiting to be scanned. */
  function Child(path: string, node: Node): Directory
    requires node.Dir?
  {
    Directory(path + "/" + node.name, node.entries)
  }

  /** Everything below a directory entry. */
  function Below(path: string, node: Node, isMetadata: bool): multiset<Option<string>>
    decreases node
  {
    if node.Dir? then AllItems(path + "/" + node.name, node.entries, isMetadata) else multiset{}
  }

  /** Every entry below a directory, each once, however deep. */
  function AllItems(path: string, entries: seq<Node>, isMetadata: bool): multiset<Option<string>>
    decreases entries
  {
    if entries == [] then multiset{}
    else
      multiset{ItemOf(path, entries[0], isMetadata)} + Below(path, entries[0], isMetadata) + AllItems(path, entries[1..], isMetadata)
  }

  function PendingItems(pending: seq<Directory>, isMetadata: bool): multiset<Option<string>> {
    if pending == [] then multiset{}
    else
      var last := pending[|pending| - 1];
      AllItems(last.path, last.entries, isMetadata) + PendingItems(pending[..|pending| - 1], isMetadata)
  }

  function RootItems(roots: seq<Root>): multiset<Option<string>> {
    if roots == [] then multiset{}
    else
      var last := roots[|roots| - 1];
      RootItems(roots[..|roots| - 1])
      + (if last.runs.Some? then AllItems("runs", last.runs.value, last.isMetadata) else multiset{})
  }

  /** Total weight of the directories still to scan: every entry and every directory below them. */
  function Weight(entries: seq<Node>): nat
    decreases entries
  {
    if entries == [] then 0 else 1 + WeightBelow(entries[0]) + Weight(entries[1..])
  }

  function WeightBelow(node: Node): nat
    decreases node
  {
    if node.Dir? then 1 + Weight(node.entries) else 0
  }

  function PendingWeight(pending: seq<Directory>): nat {
    if pending == [] then 0
    else PendingWeight(pending[..|pending| - 1]) + 1 + Weight(pending[|pending| - 1].entries)
  }

  lemma PushDirectory(pending: seq<Directory>, child: Directory, isMetadata: bool)
    ensures PendingItems(pending + [child], isMetadata)
         == PendingItems(pending, isMetadata) + AllItems(child.path, child.entries, isMetadata)
    ensures PendingWeight(pending + [child]) == PendingWeight(pending) + 1 + Weight(child.entries)
  {
    assert (pending + [child])[..|pending|] == pending;
  }

  lemma NextEntry(path: string, entries: seq<Node>, i: nat, isMetadata: bool)
    requires i < |entries|
    ensures AllItems(path, entries[i..], isMetadata)
         == multiset{ItemOf(path, entries[i], isMetadata)} + Below(path, entries[i], isMetadata) + AllItems(path, entries[i + 1..], isMetadata)
    ensures Weight(entries[i..]) == 1 + WeightBelow(entries[i]) + Weight(entries[i + 1..])
  {
    assert entries[i..][1..] == entries[i + 1..];
  }

  /** Moving one entry from the rest of a directory to what is yielded and pending keeps the whole. */
  lemma VisitKeepsTotal(yielded: multiset<Option<string>>, path: string, entries: seq<Node>, i: nat, isMetadata: bool,
                        pending: multiset<Option<string>>)
    requires i < |entries|
    ensures (yielded + multiset{ItemOf(path, entries[i], isMetadata)}) + AllItems(path, entries[i + 1..], isMetadata)
            + (pending + Below(path, entries[i], isMetadata))
         == yielded + AllItems(path, entries[i..], isMetadata) + pending
  {
    NextEntry(path, entries, i, isMetadata);
  }

  /** Visit one entry: yield its item and, when it is a directory, put it on the stack. */
  method VisitEntry(path: string, node: Node, stack: seq<Directory>, isMetadata: bool)
    returns (item: Option<string>, pending: seq<Directory>)
    ensures item == ItemOf(path, node, isMetadata)
    ensures PendingItems(pending, isMetadata) == PendingItems(stack, isMetadata) + Below(path, node, isMetadata)
    ensures PendingWeight(pending) == PendingWeight(stack) + WeightBelow(node)
  {
    item, pending := ItemOf(path, node, isMetadata), stack;
    if node.Dir? {
      PushDirectory(stack, Child(path, node), isMetadata);
      pending := stack + [Child(path, node)];
    }
  }

  /** The inner loop: the entries of one directory, in order. */
  method ScanDirectory(directory: Directory, stack: seq<Directory>, isMetadata: bool)
    returns (items: seq<Option<string>>, pending: seq<Directory>)
    ensures multiset(items) + PendingItems(pending, isMetadata)
         == AllItems(directory.path, directory.entries, isMetadata) + PendingItems(stack, isMetadata)
    ensures PendingWeight(pending) <= PendingWeight(stack) + Weight(directory.entries)
  {
    items, pending := [], stack;
    var path, entries := directory.path, directory.entries;
    assert AllItems(path, [], isMetadata) == multiset{} && entries[0..] == entries;
    hide PendingItems, PendingWeight, ItemOf, AllItems, Weight, Below, WeightBelow;
    ghost var yielded: multiset<Option<string>> := multiset{};
    ghost var all := AllItems(path, entries, isMetadata) + PendingItems(stack, isMetadata);
    assert yielded + AllItems(path, entries, isMetadata) == AllItems(path, entries, isMetadata);
    for i := 0 to |entries|
      invariant multiset(items) == yielded
      invariant yielded + AllItems(path, entries[i..], isMetadata) + PendingItems(pending, isMetadata) == all
      invariant PendingWeight(pending) + Weight(entries[i..]) <= PendingWeight(stack) + Weight(entries)
    {
      VisitKeepsTotal(yielded, path, entries, i, isMetadata, PendingItems(pending, isMetadata));
      NextEntry(path, entries, i, isMetadata);
      var item;
      item, pending := VisitEntry(path, entries[i], pending, isMetadata);
      items := items + [item];
      yielded := yielded + multiset{item};
    }
    assert entries[|entries|..] == [];
    assert yielded + AllItems(path, [], isMetadata) == yielded;
  }

  /** The walk below one root: entries are yielded as their directory is scanned, subdirectories wait on a stack. */
  method WalkRoot(runs: seq<Node>, isMetadata: bool) returns (items: seq<Option<string>>)
    ensures multiset(items) == AllItems("runs", runs, isMetadata)
  {
    items := [];
    var pending := [Directory("runs", runs)];
    PushDirectory([], pending[0], isMetadata);
    while pending != []
      invariant multiset(items) + PendingItems(pending, isMetadata) == AllItems("runs", runs, isMetadata)
      decreases PendingWeight(pending)
    {
      var directory := pending[|pending| - 1];
      var yielded;
      yielded, pending := ScanDirectory(directory, pending[..|pending| - 1], isMetadata);
      assert multiset(items + yielded) == multiset(items) + multiset(yielded);
      items := items + yielded;
    }
  }

  /** `_iter_run_entries` run to its end over the four roots: one item per entry of the tree, none left out. */
  method IterRunEntries(roots: seq<Root>) returns (items: seq<Option<string>>)
    ensures multiset(items) == RootItems(roots)
  {
    items := [];
    for r := 0 to |roots|
      invariant multiset(items) == RootItems(roots[..r])
    {
      assert roots[..r + 1][..r] == roots[..r];
      if roots[r].runs.Some? {
        var below := WalkRoot(roots[r].runs.value, roots[r].isMetadata);
        items := items + below;
      }
    }
    assert roots[..|roots|] == roots;
  }

  /** When the regular file at `relative` was modified, if there is one below `path`. */
  function FileTime(path: string, entries: seq<Node>, relative: string): Option<int>
    decreases entries
  {
    if entries == [] then None
    else
      var here :=
        match entries[0]
        case File(name, modified) => if relative == path + "/" + name then Some(modified) else None
        case Dir(name, below) => FileTime(path + "/" + name, below, relative)
        case _ => None;
      if here.Some? then here else FileTime(path, entries[1..], relative)
  }

  /** The file a root keeps for a key: the payload, or under a metadata root the sidecar `<key>.json`. */
  function NameOf(key: string, isMetadata: bool): string { if isMetadata then key + ".json" else key }

  lemma ItemNamesKey(path: string, name: string, modified: int, isMetadata: bool, key: string)
    ensures ItemOf(path, File(name, modified), isMetadata) == Some(key)
       <==> NameOf(key, isMetadata) == path + "/" + name && !EndsWith(key, ".tmp")
  {
    var relative := path + "/" + name;
    if isMetadata && EndsWith(relative, ".json") {
      assert relative == relative[..|relative| - 5] + ".json";
    }
    if isMetadata && relative == key + ".json" {
      assert relative[..|relative| - 5] == key && relative[|relative| - 5..] == ".json";
    }
  }

  /** The walk yields a key exactly when its file is there and its name does not end in `.tmp`. */
  lemma {:induction false} YieldedExactlyWhen(path: string, entries: seq<Node>, key: string, isMetadata: bool)
    ensures Some(key) in AllItems(path, entries, isMetadata)
       <==> FileTime(path, entries, NameOf(key, isMetadata)).Some? && !EndsWith(key, ".tmp")
    decreases entries
  {
    hide EndsWith, ItemOf, NameOf;
    if entries != [] {
      YieldedExactlyWhen(path, entries[1..], key, isMetadata);
      if entries[0].File? {
        ItemNamesKey(path, entries[0].name, entries[0].modified, isMetadata, key);
      } else {
        NoItem(path, entries[0], isMetadata);
        if entries[0].Dir? {
          YieldedExactlyWhen(path + "/" + entries[0].name, entries[0].entries, key, isMetadata);
        }
      }
    }
  }

  lemma NoItem(path: string, node: Node, isMetadata: bool)
    requires !node.File?
    ensures ItemOf(path, node, isMetadata) == None
  {
  }

  /** The file of a key under one root. */
  function TimeUnder(root: Root, key: string): Option<int> {
    if root.runs.Some? then FileTime("runs", root.runs.value, NameOf(key, root.isMetadata)) else None
  }

  /** The modification times of the files of a key, root by root. */
  function TimesOf(roots: seq<Root>, key: string): FileTimes {
    FileTimes(seq(|roots|, i requires 0 <= i < |roots| => TimeUnder(roots[i], key)))
  }

  /** Some root holds a file of the key. */
  predicate Exists(roots: seq<Root>, key: string) {
    exists i | 0 <= i < |roots| :: TimeUnder(roots[i], key).Some?
  }

  /** The generator yields a key exactly when some root holds its payload or sidecar and it does not end in `.tmp`. */
  lemma {:induction false} ListedExactlyWhen(roots: seq<Root>, key: string)
    ensures Some(key) in RootItems(roots) <==> Exists(roots, key) && !EndsWith(key, ".tmp")
  {
    hide EndsWith, TimeUnder;
    if roots != [] {
      var init, last := roots[..|roots| - 1], roots[|roots| - 1];
      ListedExactlyWhen(init, key);
      RootYields(last, key);
      assert forall i | 0 <= i < |init| :: init[i] == roots[i];
    }
  }

  lemma RootYields(root: Root, key: string)
    ensures Some(key) in (if root.runs.Some? then AllItems("runs", root.runs.value, root.isMetadata) else multiset{})
       <==> TimeUnder(root, key).Some? && !EndsWith(key, ".tmp")
  {
    if root.runs.Some? {
      YieldedExactlyWhen("runs", root.runs.value, key, root.isMetadata);
    }
  }

  // ----- Staleness of a key -----

  /** Modification times of the four files of a key that exist. */
  datatype FileTimes = FileTimes(times: seq<Option<int>>)

  /** Some file exists, and none is newer than the cutoff. */
  predicate IsStale(files: FileTimes, cutoff: int) {
    && (exists i | 0 <= i < |files.times| :: files.times[i].Some?)
    && (forall i | 0 <= i < |files.times| :: files.times[i].Some? ==> files.times[i].value <= cutoff)
  }

  method IsStaleRunRef(files: FileTimes, cutoff: int) returns (stale: bool)
    ensures stale == IsStale(files, cutoff)
  {
    stale := false;
    for i := 0 to |files.times|
      invariant stale <==> exists k | 0 <= k < i :: files.times[k].Some?
      invariant forall k | 0 <= k < i :: files.times[k].Some? ==> files.times[k].value <= cutoff
    {
      if files.times[i].Some? {
        stale := true;
        if files.times[i].value > cutoff {
          return false;
        }
      }
    }
  }

  /** The listed keys that are stale, by the files of the tree. */
  ghost function StaleKeys(roots: seq<Root>, cutoff: int): set<string> {
    set item | item in RootItems(roots) && item.Some? && IsStale(TimesOf(roots, item.value), cutoff) :: item.value
  }

  lemma StaleKeyIsListed(roots: seq<Root>, cutoff: int, key: string)
    ensures key in StaleKeys(roots, cutoff) <==> Some(key) in RootItems(roots) && IsStale(TimesOf(roots, key), cutoff)
  {
    if Some(key) in RootItems(roots) && IsStale(TimesOf(roots, key), cutoff) {
      assert Some(key).Some? && Some(key).value == key;
    }
  }

  // ----- One call -----

  datatype Limits = Limits(maxScan: nat, maxResults: nat)

  /** Where a call stops: what it returns, the next position, and whether the generator was exhausted. */
  datatype Stop = Stop(candidates: seq<string>, position: nat, exhausted: bool)

  predicate StaleItem(item: Option<string>, stale: set<string>) {
    item.Some? && item.value in stale
  }

  /** The loop of one call from a position on. `stale` are the keys a recheck finds stale. */
  function Scan(listing: seq<Option<string>>, stale: set<string>, position: nat, budget: nat, maxResults: nat,
                candidates: seq<string>): (stop: Stop)
    requires position <= |listing|
    ensures position <= stop.position <= |listing| && stop.position <= position + budget
    ensures budget > 0 && |candidates| < maxResults && !stop.exhausted ==> stop.position > position
    decreases budget
  {
    if budget == 0 || |candidates| >= maxResults then Stop(candidates, position, false)
    else if position == |listing| then Stop(candidates, position, true)
    else
      Scan(listing, stale, position + 1, budget - 1, maxResults, Grown(listing[position], stale, candidates))
  }

  /** How many of the entries belong to stale keys. */
  function StaleEntries(listing: seq<Option<string>>, stale: set<string>): nat {
    if listing == [] then 0
    else StaleEntries(listing[..|listing| - 1], stale) + (if StaleItem(listing[|listing| - 1], stale) then 1 else 0)
  }

  lemma {:induction false} StaleEntriesSplit(a: seq<Option<string>>, b: seq<Option<string>>, stale: set<string>)
    ensures StaleEntries(a + b, stale) == StaleEntries(a, stale) + StaleEntries(b, stale)
  {
    if b == [] {
      assert a + b == a;
    } else {
      assert (a + b)[..|a + b| - 1] == a + b[..|b| - 1];
      StaleEntriesSplit(a, b[..|b| - 1], stale);
    }
  }

  /** The candidates are those before and the stale keys of the slice. */
  ghost predicate Collected(before: seq<string>, candidates: seq<string>, slice: seq<Option<string>>, stale: set<string>) {
    forall key :: key in candidates <==> key in before || (key in stale && Some(key) in slice)
  }

  function Grown(item: Option<string>, stale: set<string>, candidates: seq<string>): seq<string> {
    if StaleItem(item, stale) && item.value !in candidates then candidates + [item.value] else candidates
  }

  lemma {:induction false} ScanLimits(listing: seq<Option<string>>, stale: set<string>, position: nat, budget: nat, maxResults: nat,
                                      candidates: seq<string>)
    requires position <= |listing| && |candidates| <= maxResults && Distinct(candidates)
    ensures var stop := Scan(listing, stale, position, budget, maxResults, candidates);
      && |stop.candidates| <= maxResults && Distinct(stop.candidates)
      && (stop.exhausted ==> stop.position == |listing|)
      && (!stop.exhausted ==> stop.position == position + budget || |stop.candidates| == maxResults)
    decreases budget
  {
    if budget == 0 || |candidates| >= maxResults || position == |listing| {
    } else {
      ScanLimits(listing, stale, position + 1, budget - 1, maxResults, Grown(listing[position], stale, candidates));
    }
  }

  lemma {:induction false} ScanCollects(listing: seq<Option<string>>, stale: set<string>, position: nat, budget: nat, maxResults: nat,
                                        candidates: seq<string>)
    requires position <= |listing|
    ensures var stop := Scan(listing, stale, position, budget, maxResults, candidates);
            var slice := listing[position..stop.position];
      && Collected(candidates, stop.candidates, slice, stale)
      && |stop.candidates| - |candidates| <= StaleEntries(slice, stale)
    decreases budget
  {
    hide StaleEntries;
    if budget == 0 || |candidates| >= maxResults || position == |listing| {
    } else {
      hide Collected;
      var item := listing[position];
      var found := Grown(item, stale, candidates);
      ScanCollects(listing, stale, position + 1, budget - 1, maxResults, found);
      hide Grown;
      var stop := Scan(listing, stale, position, budget, maxResults, candidates);
      var tail := listing[position + 1..stop.position];
      assert listing[position..stop.position] == [item] + tail;
      OneMore(candidates, found, stop.candidates, item, tail, stale);
    }
  }

  lemma OneMore(before: seq<string>, found: seq<string>, candidates: seq<string>, item: Option<string>, tail: seq<Option<string>>,
                stale: set<string>)
    requires found == Grown(item, stale, before)
    requires Collected(found, candidates, tail, stale) && |candidates| - |found| <= StaleEntries(tail, stale)
    ensures Collected(before, candidates, [item] + tail, stale)
    ensures |candidates| - |before| <= StaleEntries([item] + tail, stale)
  {
    StaleEntriesSplit([item], tail, stale);
    assert [item][..0] == [];
  }

  /** What one call returns, from any position: exactly the stale keys of the slice it consumes, within both limits. */
  lemma CallIsBounded(listing: seq<Option<string>>, stale: set<string>, position: nat, limits: Limits)
    requires position <= |listing|
    ensures var stop := Scan(listing, stale, position, limits.maxScan, limits.maxResults, []);
            var slice := listing[position..stop.position];
      && |stop.candidates| <= limits.maxResults && Distinct(stop.candidates)
      && |slice| <= limits.maxScan
      && Collected([], stop.candidates, slice, stale)
      && |stop.candidates| <= StaleEntries(slice, stale)
      && (stop.exhausted ==> stop.position == |listing|)
      && (!stop.exhausted ==> stop.position == position + limits.maxScan || |stop.candidates| == limits.maxResults)
  {
    ScanLimits(listing, stale, position, limits.maxScan, limits.maxResults, []);
    ScanCollects(listing, stale, position, limits.maxScan, limits.maxResults, []);
  }

  // ----- A pass: the calls from a fresh generator until it is exhausted -----

  function Pass(listing: seq<Option<string>>, stale: set<string>, position: nat, limits: Limits): (stops: seq<Stop>)
    requires position <= |listing| && limits.maxScan > 0 && limits.maxResults > 0
    ensures stops != []
    decreases |listing| - position
  {
    var stop := Scan(listing, stale, position, limits.maxScan, limits.maxResults, []);
    if stop.exhausted then [stop]
    else [stop] + Pass(listing, stale, stop.position, limits)
  }

  /** The calls consume consecutive slices of the listing, from `position` to its end, and only the last finds it exhausted. */
  predicate Slices(listing: seq<Option<string>>, position: nat, stops: seq<Stop>)
    decreases |stops|
  {
    stops != [] && position <= stops[0].position <= |listing| &&
    if |stops| == 1 then stops[0].exhausted && stops[0].position == |listing|
    else !stops[0].exhausted && Slices(listing, stops[0].position, stops[1..])
  }

  /** Some call returns `key`. */
  predicate Returned(stops: seq<Stop>, key: string) {
    stops != [] && (key in stops[0].candidates || Returned(stops[1..], key))
  }

  lemma {:induction false} PassSlices(listing: seq<Option<string>>, stale: set<string>, position: nat, limits: Limits)
    requires position <= |listing| && limits.maxScan > 0 && limits.maxResults > 0
    ensures Slices(listing, position, Pass(listing, stale, position, limits))
    decreases |listing| - position
  {
    var stop := Scan(listing, stale, position, limits.maxScan, limits.maxResults, []);
    ScanLimits(listing, stale, position, limits.maxScan, limits.maxResults, []);
    hide Scan;
    if !stop.exhausted {
      PassSlices(listing, stale, stop.position, limits);
      assert Pass(listing, stale, position, limits)[1..] == Pass(listing, stale, stop.position, limits);
    }
  }

  predicate ListedFrom(listing: seq<Option<string>>, position: nat, key: string)
    requires position <= |listing|
  {
    Some(key) in listing[position..]
  }

  lemma CallFindsItsSlice(listing: seq<Option<string>>, stale: set<string>, position: nat, limits: Limits, key: string)
    requires position <= |listing|
    ensures var stop := Scan(listing, stale, position, limits.maxScan, limits.maxResults, []);
      && (key in stop.candidates ==> key in stale && ListedFrom(listing, position, key))
      && (stop.exhausted && key in stale && ListedFrom(listing, position, key) ==> key in stop.candidates)
      && (ListedFrom(listing, stop.position, key) ==> ListedFrom(listing, position, key))
      && (key in stale && ListedFrom(listing, position, key) ==>
            key in stop.candidates || ListedFrom(listing, stop.position, key))
  {
    CallIsBounded(listing, stale, position, limits);
    hide Scan, StaleEntries, Distinct;
    var stop := Scan(listing, stale, position, limits.maxScan, limits.maxResults, []);
    assert listing[position..] == listing[position..stop.position] + listing[stop.position..];
  }

  lemma {:induction false} PassReturns(listing: seq<Option<string>>, stale: set<string>, position: nat, limits: Limits, key: string)
    requires position <= |listing| && limits.maxScan > 0 && limits.maxResults > 0
    ensures Returned(Pass(listing, stale, position, limits), key) <==> key in stale && ListedFrom(listing, position, key)
    decreases |listing| - position
  {
    hide Scan, ListedFrom;
    var stop := Scan(listing, stale, position, limits.maxScan, limits.maxResults, []);
    CallFindsItsSlice(listing, stale, position, limits, key);
    var stops := Pass(listing, stale, position, limits);
    if stop.exhausted {
      assert stops[1..] == [];
    } else {
      assert stops[1..] == Pass(listing, stale, stop.position, limits);
      PassReturns(listing, stale, stop.position, limits, key);
    }
  }

  /**
   * No starvation: the calls of one pass consume the listing in consecutive slices without gap or repeat,
   * and a key is returned by some call exactly when it is stale and listed.
   */
  lemma PassReturnsEveryStaleKey(listing: seq<Option<string>>, stale: set<string>, limits: Limits)
    requires limits.maxScan > 0 && limits.maxResults > 0
    ensures Slices(listing, 0, Pass(listing, stale, 0, limits))
    ensures forall key :: Returned(Pass(listing, stale, 0, limits), key) <==> key in stale && Some(key) in listing
  {
    PassSlices(listing, stale, 0, limits);
    assert listing[0..] == listing;
    forall key
      ensures Returned(Pass(listing, stale, 0, limits), key) <==> key in stale && Some(key) in listing
    {
      PassReturns(listing, stale, 0, limits, key);
    }
  }

  lemma StaleKeyExists(roots: seq<Root>, cutoff: int, key: string)
    requires IsStale(TimesOf(roots, key), cutoff)
    ensures Exists(roots, key)
  {
    var times := TimesOf(roots, key).times;
    var i :| 0 <= i < |times| && times[i].Some?;
    assert times[i] == TimeUnder(roots[i], key);
  }

  /**
   * On an unchanged tree one pass returns a key if and only if some of its four files exists, none is newer
   * than the cutoff, and the key does not end in `.tmp`.
   */
  lemma PassCollectsTree(roots: seq<Root>, listing: seq<Option<string>>, cutoff: int, limits: Limits, key: string)
    requires multiset(listing) == RootItems(roots) && limits.maxScan > 0 && limits.maxResults > 0
    ensures Returned(Pass(listing, StaleKeys(roots, cutoff), 0, limits), key)
       <==> IsStale(TimesOf(roots, key), cutoff) && !EndsWith(key, ".tmp")
  {
    hide EndsWith, IsStale, RootItems, TimesOf, Returned, Pass, StaleKeys, Slices;
    PassReturnsEveryStaleKey(listing, StaleKeys(roots, cutoff), limits);
    StaleKeyIsListed(roots, cutoff, key);
    ListedExactlyWhen(roots, key);
    assert Some(key) in listing <==> Some(key) in multiset(listing);
    if IsStale(TimesOf(roots, key), cutoff) {
      StaleKeyExists(roots, cutoff, key);
    }
  }

  /** A legal key that no pass ever returns, however old its file is. */
  lemma TemporaryNameIsNeverCollected(modified: int, cutoff: int, limits: Limits)
    requires modified <= cutoff && limits.maxScan > 0 && limits.maxResults > 0
    ensures var roots := [Root(Some([File("a.tmp", modified)]), false)];
      && IsStale(TimesOf(roots, "runs/a.tmp"), cutoff)
      && forall listing: seq<Option<string>> | multiset(listing) == RootItems(roots) ::
           !Returned(Pass(listing, StaleKeys(roots, cutoff), 0, limits), "runs/a.tmp")
  {
    var roots := [Root(Some([File("a.tmp", modified)]), false)];
    var key := "runs/a.tmp";
    assert "runs" + "/" + "a.tmp" == key;
    assert FileTime("runs", [File("a.tmp", modified)], key) == Some(modified);
    assert TimesOf(roots, key).times == [Some(modified)];
    assert TimesOf(roots, key).times[0].Some?;
    forall listing: seq<Option<string>> | multiset(listing) == RootItems(roots)
      ensures !Returned(Pass(listing, StaleKeys(roots, cutoff), 0, limits), key)
    {
      PassCollectsTree(roots, listing, cutoff, limits, key);
    }
  }

  /** A suffix is what a string ends with. */
  lemma EndsWithMeans(s: string, suffix: string)
    ensures EndsWith(s, suffix) <==> exists front :: s == front + suffix
  {
    if EndsWith(s, suffix) {
      assert s == s[..|s| - |suffix|] + suffix;
    }
    if front :| s == front + suffix {
      assert s[|s| - |suffix|..] == suffix;
    }
  }

  /** And one that is returned: a payload and its sidecar in a subdirectory, both old, are found under one key. */
  lemma OldFilesAreCollected(modified: int, cutoff: int, limits: Limits, listing: seq<Option<string>>)
    requires modified <= cutoff && limits.maxScan > 0 && limits.maxResults > 0
    requires multiset(listing) == RootItems(OldFiles(modified))
    ensures TimesOf(OldFiles(modified), "runs/x/a").times == [Some(modified), Some(modified)]
    ensures Returned(Pass(listing, StaleKeys(OldFiles(modified), cutoff), 0, limits), "runs/x/a")
    ensures Some("runs/x/a") in listing
  {
    var roots, key := OldFiles(modified), "runs/x/a";
    OldFilesAreThere(modified);
    assert TimesOf(roots, key).times[0].Some?;
    assert key[|key| - 1] == 'a' && ".tmp"[3] == 'p';
    EndsWithMeans(key, ".tmp");
    PassCollectsTree(roots, listing, cutoff, limits, key);
    ListedExactlyWhen(roots, key);
    assert TimeUnder(roots[0], key).Some?;
    assert Some(key) in listing <==> Some(key) in multiset(listing);
  }

  function OldFiles(modified: int): seq<Root> {
    [Root(Some([Dir("x", [File("a", modified)])]), false), Root(Some([Dir("x", [File("a.json", modified)])]), true)]
  }

  lemma OldFilesAreThere(modified: int)
    ensures TimesOf(OldFiles(modified), "runs/x/a").times == [Some(modified), Some(modified)]
  {
    assert "runs" + "/" + "x" + "/" + "a" == "runs/x/a";
    assert "runs" + "/" + "x" + "/" + "a.json" == "runs/x/a" + ".json";
    var payload, sidecar := File("a", modified), File("a.json", modified);
    assert FileTime("runs/x", [payload], "runs/x/a") == Some(modified);
    assert FileTime("runs/x", [sidecar], "runs/x/a.json") == Some(modified);
    assert FileTime("runs", [Dir("x", [payload])], "runs/x/a") == Some(modified);
    assert FileTime("runs", [Dir("x", [sidecar])], "runs/x/a.json") == Some(modified);
  }

  /** Calls of a pass, but its last, that used their whole scan budget (`full`) or stopped at a full result instead. */
  function Stops(listing: seq<Option<string>>, stale: set<string>, position: nat, limits: Limits, full: bool): nat
    requires position <= |listing| && limits.maxScan > 0 && limits.maxResults > 0
    decreases |listing| - position
  {
    var stop := Scan(listing, stale, position, limits.maxScan, limits.maxResults, []);
    if stop.exhausted then 0
    else (if full == (stop.position == position + limits.maxScan) then 1 else 0) + Stops(listing, stale, stop.position, limits, full)
  }

  lemma {:induction false} EveryCallCounted(listing: seq<Option<string>>, stale: set<string>, position: nat, limits: Limits)
    requires position <= |listing| && limits.maxScan > 0 && limits.maxResults > 0
    ensures |Pass(listing, stale, position, limits)|
         == 1 + Stops(listing, stale, position, limits, true) + Stops(listing, stale, position, limits, false)
    decreases |listing| - position
  {
    hide Scan;
    var stop := Scan(listing, stale, position, limits.maxScan, limits.maxResults, []);
    if !stop.exhausted {
      EveryCallCounted(listing, stale, stop.position, limits);
    }
  }

  lemma {:induction false} FullScansBound(listing: seq<Option<string>>, stale: set<string>, position: nat, limits: Limits)
    requires position <= |listing| && limits.maxScan > 0 && limits.maxResults > 0
    ensures Times(Stops(listing, stale, position, limits, true), limits.maxScan) <= |listing| - position
    decreases |listing| - position
  {
    hide Scan;
    var stop := Scan(listing, stale, position, limits.maxScan, limits.maxResults, []);
    if !stop.exhausted {
      FullScansBound(listing, stale, stop.position, limits);
    }
  }

  function StaleFrom(listing: seq<Option<string>>, stale: set<string>, position: nat): nat
    requires position <= |listing|
  {
    StaleEntries(listing[position..], stale)
  }

  /** A call that stops at a full result has consumed at least that many entries of stale keys. */
  lemma FullResultUsesStaleEntries(listing: seq<Option<string>>, stale: set<string>, position: nat, limits: Limits)
    requires position <= |listing|
    ensures var stop := Scan(listing, stale, position, limits.maxScan, limits.maxResults, []);
      && StaleFrom(listing, stale, position) >= StaleFrom(listing, stale, stop.position)
      && (!stop.exhausted && stop.position != position + limits.maxScan ==>
            StaleFrom(listing, stale, position) >= limits.maxResults + StaleFrom(listing, stale, stop.position))
  {
    var stop := Scan(listing, stale, position, limits.maxScan, limits.maxResults, []);
    CallIsBounded(listing, stale, position, limits);
    hide Scan, StaleEntries, Distinct, Collected;
    assert listing[position..] == listing[position..stop.position] + listing[stop.position..];
    StaleEntriesSplit(listing[position..stop.position], listing[stop.position..], stale);
  }

  lemma {:induction false} FullResultsBound(listing: seq<Option<string>>, stale: set<string>, position: nat, limits: Limits)
    requires position <= |listing| && limits.maxScan > 0 && limits.maxResults > 0
    ensures Times(Stops(listing, stale, position, limits, false), limits.maxResults) <= StaleFrom(listing, stale, position)
    decreases |listing| - position
  {
    hide Scan, StaleFrom;
    var stop := Scan(listing, stale, position, limits.maxScan, limits.maxResults, []);
    FullResultUsesStaleEntries(listing, stale, position, limits);
    if !stop.exhausted {
      FullResultsBound(listing, stale, stop.position, limits);
    }
  }

  /**
   * A pass over N entries, C of which belong to stale keys, ends within N / max_scan + C / max_results + 1
   * calls.
   */
  lemma PassEndsInTime(listing: seq<Option<string>>, stale: set<string>, limits: Limits)
    requires limits.maxScan > 0 && limits.maxResults > 0
    ensures |Pass(listing, stale, 0, limits)|
         <= |listing| / limits.maxScan + StaleEntries(listing, stale) / limits.maxResults + 1
  {
    EveryCallCounted(listing, stale, 0, limits);
    FullScansBound(listing, stale, 0, limits);
    FullResultsBound(listing, stale, 0, limits);
    assert listing[0..] == listing;
    TimesIsProduct(Stops(listing, stale, 0, limits, true), limits.maxScan);
    TimesIsProduct(Stops(listing, stale, 0, limits, false), limits.maxResults);
    QuotientBound(Stops(listing, stale, 0, limits, true), |listing|, limits.maxScan);
    QuotientBound(Stops(listing, stale, 0, limits, false), StaleEntries(listing, stale), limits.maxResults);
  }

  // ----- The adapter -----

  datatype ScanError = LimitsOutOfBounds

  class LocalRunScanner {
    /** The four namespace roots, as the tree stands. */
    const roots: seq<Root>
    /** What the stored generator yields, and the items consumed from it, when there is one. */
    var listing: seq<Option<string>>
    var gcScanIter: Option<nat>

    ghost predicate Valid()
      reads this
    {
      gcScanIter.Some? ==> gcScanIter.value <= |listing| && multiset(listing) == RootItems(roots)
    }

    function Position(): nat
      reads this
    {
      if gcScanIter.Some? then gcScanIter.value else 0
    }

    constructor (roots: seq<Root>)
      ensures Valid() && gcScanIter == None && this.roots == roots
    {
      this.roots := roots;
      listing, gcScanIter := [], None;
    }

    /** `stale_run_refs` as written: bounded by both limits, resumed, and restarted after exhaustion. */
    method StaleRunRefs(cutoff: int, limits: Limits) returns (r: Result<seq<string>, ScanError>)
      requires Valid()
      modifies this
      ensures Valid()
      ensures r.Err? <==> !(1 <= limits.maxResults <= 500 && 1 <= limits.maxScan <= 100_000)
      ensures r.Err? ==> gcScanIter == old(gcScanIter) && listing == old(listing)
      ensures old(gcScanIter).Some? ==> listing == old(listing)
      ensures r.Ok? ==>
        && multiset(listing) == RootItems(roots) && old(Position()) <= |listing|
        && var stop := Scan(listing, StaleKeys(roots, cutoff), old(Position()), limits.maxScan, limits.maxResults, []);
                        r.value == stop.candidates && gcScanIter == (if stop.exhausted then None else Some(stop.position))
    {
      hide StaleKeys, TimesOf, IsStale, RootItems;
      if !(1 <= limits.maxResults <= 500 && 1 <= limits.maxScan <= 100_000) {
        return Err(LimitsOutOfBounds);
      }
      if gcScanIter.None? {
        listing := IterRunEntries(roots);
        gcScanIter := Some(0);
      }
      var candidates, next := Collect(roots, listing, gcScanIter.value, cutoff, limits);
      gcScanIter := next;
      r := Ok(candidates);
    }
  }

  /** The loop of `stale_run_refs`: at most `max_scan` items of the generator, from `start` on. */
  method Collect(roots: seq<Root>, listing: seq<Option<string>>, start: nat, cutoff: int, limits: Limits)
    returns (candidates: seq<string>, next: Option<nat>)
    requires multiset(listing) == RootItems(roots) && start <= |listing|
    ensures var stop := Scan(listing, StaleKeys(roots, cutoff), start, limits.maxScan, limits.maxResults, []);
      candidates == stop.candidates && next == if stop.exhausted then None else Some(stop.position)
  {
    hide StaleKeys, TimesOf, IsStale, RootItems;
    candidates := [];
    var position: nat := start;
    ghost var stale := StaleKeys(roots, cutoff);
    ghost var all := Scan(listing, stale, start, limits.maxScan, limits.maxResults, []);
    for step := 0 to limits.maxScan
      invariant position <= |listing|
      invariant Scan(listing, stale, position, limits.maxScan - step, limits.maxResults, candidates) == all
    {
      if |candidates| >= limits.maxResults {
        break;
      }
      if position == |listing| {
        return candidates, None;
      }
      var item := listing[position];
      position := position + 1;
      if item.Some? && item.value !in candidates {
        StaleKeyIsListed(roots, cutoff, item.value);
        assert item in multiset(listing);
        var isStale := IsStaleRunRef(TimesOf(roots, item.value), cutoff);
        if isStale {
          candidates := candidates + [item.value];
        }
      }
    }
    next := Some(position);
  }
}
