/**
 * The expansion of a bounded matrix of seeds and full configurations into child runs: variant by variant
 * in the order of their names, and within a variant seed by seed.
 */
module ScenarioMatrix {
  import opened Prelude
  import opened Ordering
  import opened Sorting

  const MIN_MATRIX_RUNS := 3
  const MAX_MATRIX_RUNS := 10
  const MAX_PERSISTED_SEED := 0x7FFF_FFFF_FFFF_FFFF

  /** A named configuration; its text is canonical JSON. */
  datatype Variant = Variant(name: string, config: string)

  datatype Spec = Spec(seeds: seq<int>, variants: seq<Variant>, datasetVersionIds: seq<string>,
                       configSchemaVersion: string, commitSha: string, concurrencyLimit: int)

  datatype MatrixError =
    | EmptyMatrix | WrongRunCount | SeedOutOfRange | DuplicateSeed | DuplicateName | DuplicateConfig
    | DuplicateDataset | BadSchemaVersion | BadCommit | BadConcurrency

  function Names(variants: seq<Variant>): seq<string> {
    seq(|variants|, i requires 0 <= i < |variants| => variants[i].name)
  }

  function Configs(variants: seq<Variant>): seq<string> {
    seq(|variants|, i requires 0 <= i < |variants| => variants[i].config)
  }

  predicate HexDigit(c: char) { '0' <= c <= '9' || 'a' <= c <= 'f' }

  /** The first check of the specification that fails, if one does. */
  function Validate(spec: Spec): Option<MatrixError> {
    var runs := |spec.seeds| * |spec.variants|;
    if spec.seeds == [] || spec.variants == [] then Some(EmptyMatrix)
    else if !(MIN_MATRIX_RUNS <= runs <= MAX_MATRIX_RUNS) then Some(WrongRunCount)
    else if exists s :: s in spec.seeds && !(0 <= s <= MAX_PERSISTED_SEED) then Some(SeedOutOfRange)
    else if !Distinct(spec.seeds) then Some(DuplicateSeed)
    else if !Distinct(Names(spec.variants)) then Some(DuplicateName)
    else if !Distinct(Configs(spec.variants)) then Some(DuplicateConfig)
    else if !Distinct(spec.datasetVersionIds) then Some(DuplicateDataset)
    else if !(0 < |spec.configSchemaVersion| <= 64) || (forall c | c in spec.configSchemaVersion :: Blank(c)) then
      Some(BadSchemaVersion)
    else if |spec.commitSha| != 40 || exists c :: c in spec.commitSha && !HexDigit(c) then Some(BadCommit)
    else if !(1 <= spec.concurrencyLimit <= runs) then Some(BadConcurrency)
    else None
  }

  /** A specification is valid exactly when it is bounded, in range, free of repetitions and complete. */
  lemma ValidExactlyWhen(spec: Spec)
    ensures var runs := |spec.seeds| * |spec.variants|;
      Validate(spec).None? <==>
        && 3 <= runs <= 10 && 1 <= spec.concurrencyLimit <= runs
        && (forall s | s in spec.seeds :: 0 <= s < 0x8000_0000_0000_0000)
        && (forall i, j | 0 <= i < j < |spec.seeds| :: spec.seeds[i] != spec.seeds[j])
        && (forall i, j | 0 <= i < j < |spec.variants| ::
              spec.variants[i].name != spec.variants[j].name && spec.variants[i].config != spec.variants[j].config)
        && (forall i, j | 0 <= i < j < |spec.datasetVersionIds| :: spec.datasetVersionIds[i] != spec.datasetVersionIds[j])
        && |spec.configSchemaVersion| <= 64 && (exists c :: c in spec.configSchemaVersion && !Blank(c))
        && |spec.commitSha| == 40 && (forall c | c in spec.commitSha :: c in "0123456789abcdef")
  {
    hide Blank;
    HexDigitsAre();
    hide HexDigit;
    NoRuns(spec);
    assert forall i, j | 0 <= i < j < |spec.variants| :: Names(spec.variants)[i] != Names(spec.variants)[j] <==> spec.variants[i].name != spec.variants[j].name;
    assert forall i, j | 0 <= i < j < |spec.variants| ::
      Configs(spec.variants)[i] != Configs(spec.variants)[j] <==> spec.variants[i].config != spec.variants[j].config;
  }

  lemma HexDigitsAre()
    ensures forall c :: HexDigit(c) <==> c in "0123456789abcdef"
  {
  }

  lemma NoRuns(spec: Spec)
    ensures spec.seeds == [] || spec.variants == [] ==> |spec.seeds| * |spec.variants| == 0
  {
  }

  /** One row of the matrix. */
  datatype Child = Child(position: nat, variantName: string, seed: int, config: string)

  predicate ByName(a: Variant, b: Variant) { Less(a.name, b.name) }

  predicate BySeed(a: int, b: int) { a < b }

  function Row(variant: Variant, seeds: seq<int>): seq<(Variant, int)> {
    seq(|seeds|, i requires 0 <= i < |seeds| => (variant, seeds[i]))
  }

  function Pairs(variants: seq<Variant>, seeds: seq<int>): seq<(Variant, int)> {
    if variants == [] then [] else Row(variants[0], seeds) + Pairs(variants[1..], seeds)
  }

  function Expand(spec: Spec): seq<Child> {
    var pairs := Pairs(Sorted(spec.variants, ByName), Sorted(spec.seeds, BySeed));
    seq(|pairs|, i requires 0 <= i < |pairs| => Child(i, pairs[i].0.name, pairs[i].1, pairs[i].0.config))
  }

  // ----- Sorting distinct keys -----

  lemma OrdersAreStrict()
    ensures StrictOrder(ByName) && StrictOrder(BySeed)
  {
    forall a: Variant
      ensures !ByName(a, a)
    {
      LessIrreflexive(a.name);
    }
    forall a: Variant, b: Variant, c: Variant | ByName(a, b) && ByName(b, c)
      ensures ByName(a, c)
    {
      LessTransitive(a.name, b.name, c.name);
    }
  }

  lemma NamesOrderVariants(variants: seq<Variant>)
    requires Distinct(Names(variants))
    ensures Distinct(variants) && TotalOn(variants, ByName)
  {
    var names := Names(variants);
    forall i, j | 0 <= i < j < |variants|
      ensures variants[i] != variants[j]
    {
      assert names[i] != names[j];
    }
    forall x, y | x in variants && y in variants
      ensures x == y || ByName(x, y) || ByName(y, x)
    {
      var i :| 0 <= i < |variants| && variants[i] == x;
      var j :| 0 <= j < |variants| && variants[j] == y;
      assert i == j || names[i] != names[j];
      LessTotal(x.name, y.name);
    }
  }

  lemma SeedsAreOrdered(seeds: seq<int>)
    ensures TotalOn(seeds, BySeed)
  {
  }

  // ----- The product of two sorted sequences -----

  predicate PairBefore(p: (Variant, int), q: (Variant, int)) {
    Less(p.0.name, q.0.name) || (p.0.name == q.0.name && p.1 < q.1)
  }

  lemma {:induction false} PairsHold(variants: seq<Variant>, seeds: seq<int>)
    ensures |Pairs(variants, seeds)| == |seeds| * |variants|
    ensures forall p :: p in Pairs(variants, seeds) <==> p.0 in variants && p.1 in seeds
  {
    if variants != [] {
      PairsHold(variants[1..], seeds);
      var row, rest := Row(variants[0], seeds), Pairs(variants[1..], seeds);
      assert |row + rest| == |seeds| + |seeds| * (|variants| - 1) == |seeds| * |variants|;
      forall p: (Variant, int)
        ensures p in row <==> p.0 == variants[0] && p.1 in seeds
      {
        if p.0 == variants[0] && p.1 in seeds {
          var k :| 0 <= k < |seeds| && seeds[k] == p.1;
          assert row[k] == p;
        }
      }
      assert forall v :: v in variants <==> v == variants[0] || v in variants[1..];
    }
  }

  lemma {:induction false} PairsAscend(variants: seq<Variant>, seeds: seq<int>)
    requires forall i, j | 0 <= i < j < |variants| :: ByName(variants[i], variants[j])
    requires forall i, j | 0 <= i < j < |seeds| :: seeds[i] < seeds[j]
    ensures forall i, j | 0 <= i < j < |Pairs(variants, seeds)| :: PairBefore(Pairs(variants, seeds)[i], Pairs(variants, seeds)[j])
  {
    if variants != [] {
      var row, rest := Row(variants[0], seeds), Pairs(variants[1..], seeds);
      PairsAscend(variants[1..], seeds);
      PairsHold(variants[1..], seeds);
      forall i, j | 0 <= i < j < |row + rest|
        ensures PairBefore((row + rest)[i], (row + rest)[j])
      {
        if i < |row| <= j {
          assert rest[j - |row|] in rest;
          var k :| 0 <= k < |variants[1..]| && variants[1..][k] == rest[j - |row|].0;
          assert ByName(variants[0], variants[k + 1]);
        }
      }
    }
  }

  // ----- What the expansion is -----

  predicate ChildBefore(a: Child, b: Child) {
    Less(a.variantName, b.variantName) || (a.variantName == b.variantName && a.seed < b.seed)
  }

  /** The row of a variant and a seed at position k. */
  predicate IsRowOf(rows: seq<Child>, k: int, v: Variant, s: int) {
    0 <= k < |rows| && rows[k] == Child(k, v.name, s, v.config)
  }

  /** Position k holds some pair of the matrix. */
  ghost predicate FromMatrix(spec: Spec, rows: seq<Child>, k: int) {
    exists v, s :: v in spec.variants && s in spec.seeds && IsRowOf(rows, k, v, s)
  }

  predicate HasRow(rows: seq<Child>, v: Variant, s: int) {
    exists k: int | 0 <= k < |rows| :: IsRowOf(rows, k, v, s)
  }

  lemma ExpansionMembers(spec: Spec)
    ensures var rows := Expand(spec);
      && |rows| == |spec.seeds| * |spec.variants|
      && (forall k | 0 <= k < |rows| :: FromMatrix(spec, rows, k))
      && (forall v, s | v in spec.variants && s in spec.seeds :: HasRow(rows, v, s))
  {
    hide Sorted, Pairs;
    var variants, seeds := Sorted(spec.variants, ByName), Sorted(spec.seeds, BySeed);
    var pairs, rows := Pairs(variants, seeds), Expand(spec);
    SortedPermutes(spec.variants, ByName);
    SortedPermutes(spec.seeds, BySeed);
    PairsHold(variants, seeds);
    forall k | 0 <= k < |rows|
      ensures FromMatrix(spec, rows, k)
    {
      assert pairs[k] in pairs;
      assert IsRowOf(rows, k, pairs[k].0, pairs[k].1);
    }
    forall v, s | v in spec.variants && s in spec.seeds
      ensures HasRow(rows, v, s)
    {
      assert (v, s) in pairs;
      var k :| 0 <= k < |pairs| && pairs[k] == (v, s);
      assert IsRowOf(rows, k, v, s);
    }
  }

  lemma ExpansionAscends(spec: Spec)
    requires Distinct(spec.seeds) && Distinct(Names(spec.variants))
    ensures forall i, j | 0 <= i < j < |Expand(spec)| :: ChildBefore(Expand(spec)[i], Expand(spec)[j])
  {
    hide Sorted, Pairs, Names, Distinct, StrictOrder, TotalOn;
    var variants, seeds := Sorted(spec.variants, ByName), Sorted(spec.seeds, BySeed);
    OrdersAreStrict();
    NamesOrderVariants(spec.variants);
    SeedsAreOrdered(spec.seeds);
    SortedAscendsStrictly(spec.variants, ByName);
    SortedAscendsStrictly(spec.seeds, BySeed);
    PairsAscend(variants, seeds);
    var pairs, rows := Pairs(variants, seeds), Expand(spec);
    forall i, j | 0 <= i < j < |rows|
      ensures ChildBefore(rows[i], rows[j])
    {
      assert PairBefore(pairs[i], pairs[j]);
    }
  }

  /**
   * The expansion has between 3 and 10 rows at positions 0, 1, 2, ...; they strictly increase by variant
   * name and then seed; each row is a pair of the matrix, and each pair is exactly one row.
   */
  lemma ExpansionIsCanonical(spec: Spec)
    requires Validate(spec).None?
    ensures var rows := Expand(spec);
      && 3 <= |rows| == |spec.seeds| * |spec.variants| <= 10
      && (forall i, j | 0 <= i < j < |rows| :: ChildBefore(rows[i], rows[j]))
      && (forall k | 0 <= k < |rows| :: FromMatrix(spec, rows, k))
      && (forall v, s | v in spec.variants && s in spec.seeds :: HasRow(rows, v, s))
      && (forall v, s, j, k | IsRowOf(rows, j, v, s) && IsRowOf(rows, k, v, s) :: j == k)
  {
    hide Expand, Names, Distinct, FromMatrix, HasRow;
    ExpansionMembers(spec);
    ExpansionAscends(spec);
    var rows := Expand(spec);
    forall v, s, j, k | IsRowOf(rows, j, v, s) && IsRowOf(rows, k, v, s)
      ensures j == k
    {
      LessIrreflexive(v.name);
    }
  }

  lemma SameConfigSameVariant(variants: seq<Variant>, v: Variant, w: Variant)
    requires Distinct(Configs(variants)) && v in variants && w in variants && v.config == w.config
    ensures v == w
  {
    var a :| 0 <= a < |variants| && variants[a] == v;
    var b :| 0 <= b < |variants| && variants[b] == w;
    assert Configs(variants)[a] == Configs(variants)[b];
  }

  /** No two rows would start the same run: they differ in the seed or in the configuration. */
  lemma RowsAreDifferentRuns(spec: Spec, i: nat, j: nat)
    requires Validate(spec).None? && i < j < |Expand(spec)|
    ensures Expand(spec)[i].seed != Expand(spec)[j].seed || Expand(spec)[i].config != Expand(spec)[j].config
  {
    hide Expand, Names, Configs, Distinct;
    ExpansionMembers(spec);
    ExpansionAscends(spec);
    var rows := Expand(spec);
    assert FromMatrix(spec, rows, i) && FromMatrix(spec, rows, j);
    var v, s :| v in spec.variants && s in spec.seeds && IsRowOf(rows, i, v, s);
    var w, t :| w in spec.variants && t in spec.seeds && IsRowOf(rows, j, w, t);
    assert ChildBefore(rows[i], rows[j]);
    if v.config == w.config {
      SameConfigSameVariant(spec.variants, v, w);
      LessIrreflexive(v.name);
    }
  }

  ghost predicate Shows(rows: seq<Child>, v: Variant) {
    exists k: int :: 0 <= k < |rows| && rows[k].variantName == v.name && rows[k].config == v.config
  }

  ghost predicate ShowsSeed(rows: seq<Child>, s: int) {
    exists k: int :: 0 <= k < |rows| && rows[k].seed == s
  }

  /** Which variants and which seeds a specification has can be read off its rows. */
  lemma RowsTellVariant(spec: Spec, v: Variant)
    requires spec.seeds != []
    ensures v in spec.variants <==> Shows(Expand(spec), v)
  {
    hide Expand;
    ExpansionMembers(spec);
    var rows := Expand(spec);
    if v in spec.variants {
      assert HasRow(rows, v, spec.seeds[0]);
      var k :| 0 <= k < |rows| && IsRowOf(rows, k, v, spec.seeds[0]);
    }
    if Shows(rows, v) {
      var k: int :| 0 <= k < |rows| && rows[k].variantName == v.name && rows[k].config == v.config;
      assert FromMatrix(spec, rows, k);
      var w, s :| w in spec.variants && s in spec.seeds && IsRowOf(rows, k, w, s);
      assert w == v;
    }
  }

  lemma RowsTellSeed(spec: Spec, s: int)
    requires spec.variants != []
    ensures s in spec.seeds <==> ShowsSeed(Expand(spec), s)
  {
    hide Expand;
    ExpansionMembers(spec);
    var rows := Expand(spec);
    if s in spec.seeds {
      assert HasRow(rows, spec.variants[0], s);
      var k :| 0 <= k < |rows| && IsRowOf(rows, k, spec.variants[0], s);
    }
    if ShowsSeed(rows, s) {
      var k: int :| 0 <= k < |rows| && rows[k].seed == s;
      assert FromMatrix(spec, rows, k);
      var w, t :| w in spec.variants && t in spec.seeds && IsRowOf(rows, k, w, t);
    }
  }

  lemma DistinctPermutes<T>(a: seq<T>, b: seq<T>)
    requires Distinct(a) && Distinct(b) && forall x :: x in a <==> x in b
    ensures multiset(a) == multiset(b)
  {
    DistinctMeansOnce(a);
    DistinctMeansOnce(b);
    forall x
      ensures multiset(a)[x] == multiset(b)[x]
    {
      assert x in multiset(a) <==> x in a;
      assert x in multiset(b) <==> x in b;
    }
  }

  lemma PermutedExpandsAlike(a: Spec, b: Spec)
    requires Distinct(a.seeds) && Distinct(Names(a.variants))
    requires Distinct(b.seeds) && Distinct(Names(b.variants))
    requires multiset(a.seeds) == multiset(b.seeds) && multiset(a.variants) == multiset(b.variants)
    ensures Expand(a) == Expand(b)
  {
    hide Names, Distinct, Sorted, Pairs, TotalOn, StrictOrder;
    OrdersAreStrict();
    NamesOrderVariants(a.variants);
    NamesOrderVariants(b.variants);
    SeedsAreOrdered(a.seeds);
    SeedsAreOrdered(b.seeds);
    SortedIsCanonical(a.seeds, b.seeds, BySeed);
    SortedIsCanonical(a.variants, b.variants, ByName);
  }

  lemma AlikeOnlyIfPermuted(a: Spec, b: Spec)
    requires Distinct(a.seeds) && Distinct(Names(a.variants)) && a.seeds != [] && a.variants != []
    requires Distinct(b.seeds) && Distinct(Names(b.variants)) && b.seeds != [] && b.variants != []
    requires Expand(a) == Expand(b)
    ensures multiset(a.seeds) == multiset(b.seeds) && multiset(a.variants) == multiset(b.variants)
  {
    hide Names, Distinct, Expand, Shows, ShowsSeed;
    NamesOrderVariants(a.variants);
    NamesOrderVariants(b.variants);
    forall s
      ensures s in a.seeds <==> s in b.seeds
    {
      RowsTellSeed(a, s);
      RowsTellSeed(b, s);
    }
    forall v
      ensures v in a.variants <==> v in b.variants
    {
      RowsTellVariant(a, v);
      RowsTellVariant(b, v);
    }
    DistinctPermutes(a.seeds, b.seeds);
    DistinctPermutes(a.variants, b.variants);
  }

  /**
   * The expansion depends on nothing but which seeds and which variants are given: two valid
   * specifications expand to the same rows exactly when one permutes the seeds and variants of the other.
   */
  lemma SameRowsExactlyWhenPermuted(a: Spec, b: Spec)
    requires Validate(a).None? && Validate(b).None?
    ensures Expand(a) == Expand(b) <==> multiset(a.seeds) == multiset(b.seeds) && multiset(a.variants) == multiset(b.variants)
  {
    hide Names, Distinct, Expand, Configs;
    if Expand(a) == Expand(b) {
      AlikeOnlyIfPermuted(a, b);
    }
    if multiset(a.seeds) == multiset(b.seeds) && multiset(a.variants) == multiset(b.variants) {
      PermutedExpandsAlike(a, b);
    }
  }
}
