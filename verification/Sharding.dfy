/** The two test sharders: ordering, assignment, acceptance and what the produced manifests contain. */
module Sharding {
  import opened Wrappers
  import opened Ordering
  import opened Greedy
  import opened Occupancy

  /** A test file with its byte count (Flutter) or predicted seconds (Server). */
  datatype File = File(path: string, weight: real)

  datatype Error = InvalidShardCount | TestDirectoryMissing | TestFilesMissing | EmptyTestShard | ServerShardsInvalid

  /** The sort key `(-weight, path)`. */
  predicate Before(f: File, g: File) {
    f.weight > g.weight || (f.weight == g.weight && CodeLess(f.path, g.path))
  }

  ghost predicate Tests(files: seq<File>) {
    && (forall i :: 0 <= i < |files| ==> files[i].weight >= 0.0)
    && (forall i, j :: 0 <= i < j < |files| ==> files[i].path != files[j].path)
  }

  function WeightsOf(fs: seq<File>): (w: seq<real>)
    ensures |w| == |fs| && forall i :: 0 <= i < |fs| ==> w[i] == fs[i].weight
  {
    seq(|fs|, i requires 0 <= i < |fs| => fs[i].weight)
  }

  function Paths(fs: seq<File>): (p: seq<string>)
    ensures |p| == |fs| && forall i :: 0 <= i < |fs| ==> p[i] == fs[i].path
  {
    seq(|fs|, i requires 0 <= i < |fs| => fs[i].path)
  }

  function Ordered(files: seq<File>): seq<File> { Sort(files, Before) }

  function Placed(files: seq<File>, m: nat, rule: Rule): (a: seq<nat>)
    requires m > 0
    ensures |a| == |Ordered(files)|
  {
    Assign(WeightsOf(Ordered(files)), m, rule)
  }

  /** The paths of the jobs given to shard `s`, in the order they were given. */
  function Bucket(fs: seq<File>, a: seq<nat>, s: nat): seq<string>
    requires |fs| == |a|
  {
    if fs == [] then []
    else
      var n := |fs| - 1;
      Bucket(fs[..n], a[..n], s) + if a[n] == s then [fs[n].path] else []
  }

  /** The manifests: every shard's paths, sorted. */
  function Manifests(files: seq<File>, m: nat, rule: Rule, less: (string, string) -> bool): (r: seq<seq<string>>)
    requires m > 0
    ensures |r| == m
  {
    seq(m, s requires 0 <= s => Sort(Bucket(Ordered(files), Placed(files, m, rule), s), less))
  }

  // ---------------------------------------------------------------- the orders

  lemma BeforeStrict()
    ensures StrictOrder(Before)
  {
    CodeLessStrict();
    forall x, y, z | Before(x, y) && Before(y, z) ensures Before(x, z) {
      if x.weight == y.weight == z.weight {
        assert CodeLess(x.path, y.path) && CodeLess(y.path, z.path);
      }
    }
  }

  lemma TestsComparable(files: seq<File>)
    requires Tests(files)
    ensures Comparable(files, Before)
  {
    forall i, j | 0 <= i < j < |files| ensures Before(files[i], files[j]) || Before(files[j], files[i]) {
      CodeLessConnected(files[i].path, files[j].path);
    }
  }

  /** The ordered list is a rearrangement of the files with non-negative weights in descending order. */
  lemma OrderedFacts(files: seq<File>)
    requires Tests(files)
    ensures multiset(Ordered(files)) == multiset(files) && |Ordered(files)| == |files|
    ensures Weights(WeightsOf(Ordered(files))) && Descending(WeightsOf(Ordered(files)))
  {
    BeforeStrict();
    TestsComparable(files);
    SortPermutes(files, Before);
    SortSorts(files, Before);
    var fs := Ordered(files);
    forall i | 0 <= i < |fs| ensures fs[i].weight >= 0.0 {
      assert fs[i] in multiset(fs);
      assert fs[i] in files;
    }
  }

  /** Heaviest first; equally heavy files by path. */
  lemma OrderedExplicitly(files: seq<File>, i: nat, j: nat)
    requires Tests(files) && i < j < |Ordered(files)|
    ensures var f, g := Ordered(files)[i], Ordered(files)[j];
            f.weight > g.weight || (f.weight == g.weight && CodeLess(f.path, g.path))
  {
    BeforeStrict();
    TestsComparable(files);
    SortSorts(files, Before);
  }

  // ---------------------------------------------------------------- exact partition

  lemma {:induction false} InBucketMeans(fs: seq<File>, a: seq<nat>, s: nat, p: string)
    requires |fs| == |a|
    ensures p in Bucket(fs, a, s) <==> exists k :: 0 <= k < |fs| && fs[k].path == p && a[k] == s
  {
    if fs != [] {
      var n := |fs| - 1;
      InBucketMeans(fs[..n], a[..n], s, p);
      if k :| 0 <= k < n && fs[..n][k].path == p && a[..n][k] == s {
        assert fs[k].path == p && a[k] == s;
      }
      if k :| 0 <= k < |fs| && fs[k].path == p && a[k] == s {
        assert k < n ==> fs[..n][k].path == p && a[..n][k] == s;
      }
    }
  }

  /** A manifest holds exactly the paths of the files placed on its shard, in order. */
  lemma ManifestContents(files: seq<File>, m: nat, rule: Rule, s: nat, p: string)
    requires m > 0 && s < m && Tests(files)
    ensures p in Manifests(files, m, rule, PathLess)[s] <==>
            exists k :: 0 <= k < |Ordered(files)| && Ordered(files)[k].path == p && Placed(files, m, rule)[k] == s
    ensures p in Manifests(files, m, rule, CodeLess)[s] <==>
            exists k :: 0 <= k < |Ordered(files)| && Ordered(files)[k].path == p && Placed(files, m, rule)[k] == s
    ensures Sorted(Manifests(files, m, rule, PathLess)[s], PathLess)
    ensures Sorted(Manifests(files, m, rule, CodeLess)[s], CodeLess)
  {
    var bucket := Bucket(Ordered(files), Placed(files, m, rule), s);
    InBucketMeans(Ordered(files), Placed(files, m, rule), s, p);
    BucketDistinct(files, m, rule, s);
    SortedBucket(bucket, PathLess, p);
    SortedBucket(bucket, CodeLess, p);
  }

  lemma SortedBucket(bucket: seq<string>, less: (string, string) -> bool, p: string)
    requires less == PathLess || less == CodeLess
    requires forall i, j :: 0 <= i < j < |bucket| ==> bucket[i] != bucket[j]
    ensures Sorted(Sort(bucket, less), less) && (p in Sort(bucket, less) <==> p in bucket)
  {
    CodeLessStrict();
    forall i, j | 0 <= i < j < |bucket| ensures less(bucket[i], bucket[j]) || less(bucket[j], bucket[i]) {
      CodeLessConnected(bucket[i], bucket[j]);
    }
    SortSorts(bucket, less);
    SortPermutes(bucket, less);
    assert p in bucket <==> p in multiset(bucket);
    assert p in Sort(bucket, less) <==> p in multiset(Sort(bucket, less));
  }

  lemma BucketDistinct(files: seq<File>, m: nat, rule: Rule, s: nat)
    requires m > 0 && Tests(files)
    ensures var b := Bucket(Ordered(files), Placed(files, m, rule), s); forall i, j :: 0 <= i < j < |b| ==> b[i] != b[j]
  {
    var fs := Ordered(files);
    forall i, j | 0 <= i < j < |fs| ensures fs[i].path != fs[j].path {
      OrderedPaths(files, i, j);
    }
    BucketOfDistinct(fs, Placed(files, m, rule), s);
  }

  lemma OrderedPaths(files: seq<File>, i: nat, j: nat)
    requires Tests(files) && i < j < |Ordered(files)|
    ensures Ordered(files)[i].path != Ordered(files)[j].path
  {
    var fs := Ordered(files);
    OrderedExplicitly(files, i, j);
    SortPermutes(files, Before);
    assert fs[i] in multiset(fs) && fs[j] in multiset(fs);
    assert fs[i] in files && fs[j] in files;
    LexIrreflexive(Codes(fs[i].path));
  }

  lemma {:induction false} BucketOfDistinct(fs: seq<File>, a: seq<nat>, s: nat)
    requires |fs| == |a| && forall i, j :: 0 <= i < j < |fs| ==> fs[i].path != fs[j].path
    ensures forall i, j :: 0 <= i < j < |Bucket(fs, a, s)| ==> Bucket(fs, a, s)[i] != Bucket(fs, a, s)[j]
  {
    if fs != [] {
      var n := |fs| - 1;
      BucketOfDistinct(fs[..n], a[..n], s);
      InBucketMeans(fs[..n], a[..n], s, fs[n].path);
    }
  }


  /** How often a path occurs in the manifests, all together. */
  function Copies(shards: seq<seq<string>>, p: string): nat {
    if shards == [] then 0 else Copies(shards[..|shards| - 1], p) + multiset(shards[|shards| - 1])[p]
  }

  function SumUp(c: nat -> nat, m: nat): nat {
    if m == 0 then 0 else SumUp(c, m - 1) + c(m - 1)
  }

  /** Raising one term raises the sum. */
  lemma {:induction false} SumRaised(c: nat -> nat, d: nat -> nat, x: nat, e: nat, m: nat)
    requires forall s :: 0 <= s < m ==> d(s) == c(s) + if s == x then e else 0
    ensures SumUp(d, m) == SumUp(c, m) + if x < m then e else 0
  {
    if m > 0 {
      SumRaised(c, d, x, e, m - 1);
    }
  }

  lemma {:induction false} SumZero(c: nat -> nat, m: nat)
    requires forall s :: 0 <= s < m ==> c(s) == 0
    ensures SumUp(c, m) == 0
  {
    if m > 0 {
      SumZero(c, m - 1);
    }
  }

  /** How often each bucket holds the path. */
  function InBucket(fs: seq<File>, a: seq<nat>, p: string): nat -> nat
    requires |fs| == |a|
  {
    s => multiset(Bucket(fs, a, s))[p]
  }

  lemma BucketSnoc(fs: seq<File>, a: seq<nat>, f: File, x: nat, s: nat)
    requires |fs| == |a|
    ensures Bucket(fs + [f], a + [x], s) == Bucket(fs, a, s) + if x == s then [f.path] else []
  {
    assert (fs + [f])[..|fs|] == fs && (a + [x])[..|a|] == a;
  }

  lemma CountSnoc(xs: seq<string>, x: string, p: string)
    ensures multiset(xs + [x])[p] == multiset(xs)[p] + if x == p then 1 else 0
  {}

  /** One more file raises the count of its path in its own bucket. */
  lemma BucketCountSnoc(fs: seq<File>, a: seq<nat>, f: File, x: nat, s: nat, p: string)
    requires |fs| == |a|
    ensures multiset(Bucket(fs + [f], a + [x], s))[p]
            == multiset(Bucket(fs, a, s))[p] + if x == s && f.path == p then 1 else 0
  {
    BucketSnoc(fs, a, f, x, s);
    CountSnoc(Bucket(fs, a, s), f.path, p);
  }

  lemma BucketCopiesSnoc(fs: seq<File>, a: seq<nat>, f: File, x: nat, m: nat, p: string)
    requires |fs| == |a|
    ensures SumUp(InBucket(fs + [f], a + [x], p), m) == SumUp(InBucket(fs, a, p), m) + if x < m && f.path == p then 1 else 0
  {
    var c, d := InBucket(fs, a, p), InBucket(fs + [f], a + [x], p);
    var e := if f.path == p then 1 else 0;
    forall s | 0 <= s < m ensures d(s) == c(s) + if s == x then e else 0 {
      BucketCountSnoc(fs, a, f, x, s, p);
    }
    SumRaised(c, d, x, e, m);
  }

  lemma PathsSnoc(fs: seq<File>, f: File)
    ensures multiset(Paths(fs + [f])) == multiset(Paths(fs)) + multiset{f.path}
  {
    assert Paths(fs + [f]) == Paths(fs) + [f.path];
  }

  lemma {:induction false} BucketsPartition(fs: seq<File>, a: seq<nat>, m: nat, p: string)
    requires |fs| == |a| && forall i :: 0 <= i < |a| ==> a[i] < m
    ensures SumUp(InBucket(fs, a, p), m) == multiset(Paths(fs))[p]
  {
    if fs == [] {
      SumZero(InBucket(fs, a, p), m);
    } else {
      var n := |fs| - 1;
      assert fs == fs[..n] + [fs[n]] && a == a[..n] + [a[n]];
      BucketCopiesSnoc(fs[..n], a[..n], fs[n], a[n], m, p);
      BucketsPartition(fs[..n], a[..n], m, p);
      PathsSnoc(fs[..n], fs[n]);
    }
  }

  /** Shards that show a path as often as the terms say, all together show it as often as their sum. */
  lemma {:induction false} CopiesSum(r: seq<seq<string>>, c: nat -> nat, p: string)
    requires forall s :: 0 <= s < |r| ==> multiset(r[s])[p] == c(s)
    ensures Copies(r, p) == SumUp(c, |r|)
  {
    if r != [] {
      CopiesSum(r[..|r| - 1], c, p);
    }
  }

  lemma ManifestCopies(files: seq<File>, m: nat, rule: Rule, less: (string, string) -> bool, p: string)
    requires m > 0
    ensures Copies(Manifests(files, m, rule, less), p) == SumUp(InBucket(Ordered(files), Placed(files, m, rule), p), m)
  {
    var r, fs, a := Manifests(files, m, rule, less), Ordered(files), Placed(files, m, rule);
    forall s | 0 <= s < m ensures multiset(r[s])[p] == InBucket(fs, a, p)(s) {
      SortPermutes(Bucket(fs, a, s), less);
    }
    CopiesSum(r, InBucket(fs, a, p), p);
  }

  lemma {:induction false} InsertKeepsPaths(x: File, fs: seq<File>)
    ensures multiset(Paths(Insert(x, fs, Before))) == multiset{x.path} + multiset(Paths(fs))
  {
    if fs == [] || Before(x, fs[0]) {
      assert Paths([x] + fs) == [x.path] + Paths(fs);
    } else {
      InsertKeepsPaths(x, fs[1..]);
      assert Paths(fs) == [fs[0].path] + Paths(fs[1..]);
      assert Paths(Insert(x, fs, Before)) == [fs[0].path] + Paths(Insert(x, fs[1..], Before));
    }
  }

  lemma {:induction false} SortKeepsPaths(fs: seq<File>)
    ensures multiset(Paths(Ordered(fs))) == multiset(Paths(fs))
  {
    if fs != [] {
      SortKeepsPaths(fs[1..]);
      InsertKeepsPaths(fs[0], Ordered(fs[1..]));
      assert Paths(fs) == [fs[0].path] + Paths(fs[1..]);
    }
  }

  /** Every path occurs in the manifests as often as among the files: once each, for distinct paths, and no other. */
  lemma ManifestsPartition(files: seq<File>, m: nat, rule: Rule, less: (string, string) -> bool, p: string)
    requires m > 0
    ensures Copies(Manifests(files, m, rule, less), p) == multiset(Paths(files))[p]
    ensures Tests(files) ==> Copies(Manifests(files, m, rule, less), p) == if p in Paths(files) then 1 else 0
  {
    ManifestCopies(files, m, rule, less, p);
    BucketsPartition(Ordered(files), Placed(files, m, rule), m, p);
    SortKeepsPaths(files);
    if Tests(files) {
      DistinctOnce(Paths(files), p);
    }
  }

  lemma {:induction false} DistinctOnce(xs: seq<string>, p: string)
    requires forall i, j :: 0 <= i < j < |xs| ==> xs[i] != xs[j]
    ensures multiset(xs)[p] == if p in xs then 1 else 0
  {
    if xs != [] {
      var n := |xs| - 1;
      assert xs == xs[..n] + [xs[n]];
      DistinctOnce(xs[..n], p);
    }
  }

  /** The manifests do not depend on the order in which the files were discovered. */
  lemma ManifestsOrderFree(f: seq<File>, g: seq<File>, m: nat, rule: Rule, less: (string, string) -> bool)
    requires m > 0 && Tests(f) && Tests(g) && multiset(f) == multiset(g)
    ensures Manifests(f, m, rule, less) == Manifests(g, m, rule, less)
  {
    BeforeStrict();
    TestsComparable(f);
    TestsComparable(g);
    SortOrderFree(f, g, Before);
  }

  // ---------------------------------------------------------------- balance

  /** What shard `s` weighs when every file goes where `place` says. */
  function PlacementLoad(files: seq<File>, place: File -> nat, s: nat): real {
    if files == [] then 0.0
    else PlacementLoad(files[1..], place, s) + if place(files[0]) == s then files[0].weight else 0.0
  }

  function PlacementMax(files: seq<File>, place: File -> nat, m: nat): real
    requires m > 0
  {
    var last := PlacementLoad(files, place, m - 1);
    if m == 1 then last
    else
      var rest := PlacementMax(files, place, m - 1);
      if last > rest then last else rest
  }

  function Chosen(files: seq<File>, place: File -> nat): (a: seq<nat>)
    ensures |a| == |files|
  {
    seq(|files|, i requires 0 <= i < |files| => place(files[i]))
  }

  lemma {:induction false} InsertKeepsLoad(x: File, fs: seq<File>, place: File -> nat, s: nat)
    ensures PlacementLoad(Insert(x, fs, Before), place, s) == PlacementLoad([x] + fs, place, s)
  {
    assert ([x] + fs)[1..] == fs;
    if fs != [] && !Before(x, fs[0]) {
      InsertKeepsLoad(x, fs[1..], place, s);
      assert ([x] + fs[1..])[1..] == fs[1..];
    }
  }

  lemma {:induction false} SortKeepsLoad(fs: seq<File>, place: File -> nat, s: nat)
    ensures PlacementLoad(Ordered(fs), place, s) == PlacementLoad(fs, place, s)
  {
    if fs != [] {
      SortKeepsLoad(fs[1..], place, s);
      InsertKeepsLoad(fs[0], Ordered(fs[1..]), place, s);
      assert ([fs[0]] + Ordered(fs[1..]))[1..] == Ordered(fs[1..]);
    }
  }

  lemma {:induction false} LoadFromFront(a: seq<nat>, w: seq<real>, s: nat)
    requires |a| == |w| && a != []
    ensures Load(a, w, s) == Load(a[1..], w[1..], s) + if a[0] == s then w[0] else 0.0
  {
    var n := |a| - 1;
    if n > 0 {
      LoadFromFront(a[..n], w[..n], s);
      assert a[..n][1..] == a[1..][..n - 1] && w[..n][1..] == w[1..][..n - 1];
    }
  }

  lemma {:induction false} PlacementIsLoad(fs: seq<File>, place: File -> nat, s: nat)
    ensures PlacementLoad(fs, place, s) == Load(Chosen(fs, place), WeightsOf(fs), s)
  {
    if fs != [] {
      PlacementIsLoad(fs[1..], place, s);
      LoadFromFront(Chosen(fs, place), WeightsOf(fs), s);
      assert Chosen(fs, place)[1..] == Chosen(fs[1..], place) && WeightsOf(fs)[1..] == WeightsOf(fs[1..]);
    }
  }

  lemma {:induction false} PlacementMaxIsMaxLoad(files: seq<File>, place: File -> nat, m: nat)
    requires m > 0
    ensures PlacementMax(files, place, m) == MaxLoad(Chosen(Ordered(files), place), WeightsOf(Ordered(files)), m)
  {
    SortKeepsLoad(files, place, m - 1);
    PlacementIsLoad(Ordered(files), place, m - 1);
    if m > 1 {
      PlacementMaxIsMaxLoad(files, place, m - 1);
    }
  }

  /** The heaviest shard of a manifest set. */
  function Heaviest(files: seq<File>, m: nat, rule: Rule): real
    requires m > 0
  {
    MaxLoad(Placed(files, m, rule), WeightsOf(Ordered(files)), m)
  }

  /** No placement of the same files on the same number of shards beats the sharder by more than 4/3 - 1/(3m). */
  lemma WithinFourThirdsOfAnyPlacement(files: seq<File>, m: nat, rule: Rule, place: File -> nat)
    requires m > 0 && Tests(files) && forall i :: 0 <= i < |files| ==> place(files[i]) < m
    ensures WithinFourThirds(m as real, Heaviest(files, m, rule), PlacementMax(files, place, m))
  {
    OrderedFacts(files);
    PlacementMaxIsMaxLoad(files, place, m);
    var fs := Ordered(files);
    forall i | 0 <= i < |fs| ensures place(fs[i]) < m {
      assert fs[i] in multiset(fs);
      assert fs[i] in files;
    }
    GrahamBound(WeightsOf(fs), m, rule, Chosen(fs, place));
  }

  // ---------------------------------------------------------------- emptiness

  function Positives(files: seq<File>): nat {
    if files == [] then 0 else Positives(files[1..]) + if files[0].weight > 0.0 then 1 else 0
  }

  lemma {:induction false} InsertKeepsPositives(x: File, fs: seq<File>)
    ensures Positives(Insert(x, fs, Before)) == Positives(fs) + if x.weight > 0.0 then 1 else 0
  {
    if fs == [] || Before(x, fs[0]) {
      assert ([x] + fs)[1..] == fs;
    } else {
      InsertKeepsPositives(x, fs[1..]);
    }
  }

  lemma {:induction false} SortKeepsPositives(fs: seq<File>)
    ensures Positives(Ordered(fs)) == Positives(fs)
  {
    if fs != [] {
      SortKeepsPositives(fs[1..]);
      InsertKeepsPositives(fs[0], Ordered(fs[1..]));
    }
  }

  lemma {:induction false} PositivesLead(fs: seq<File>)
    requires Weights(WeightsOf(fs)) && Descending(WeightsOf(fs))
    ensures PositivePrefix(WeightsOf(fs), Positives(fs))
  {
    if fs != [] {
      var w := WeightsOf(fs);
      assert WeightsOf(fs[1..]) == w[1..];
      PositivesLead(fs[1..]);
      var p := Positives(fs[1..]);
      forall i | 1 <= i < |fs| ensures (i <= p ==> w[i] > 0.0) && (i > p ==> w[i] == 0.0) {
        assert w[1..][i - 1] == w[i];
      }
      assert p > 0 ==> w[0] >= w[1] > 0.0;
    }
  }

  /** What the Flutter sharder can fill: one shard per file of positive size, and one for all empty files together. */
  function Fillable(files: seq<File>): nat {
    Positives(files) + if Positives(files) < |files| then 1 else 0
  }

  lemma FlutterFills(files: seq<File>, m: nat)
    requires m > 0 && Tests(files)
    ensures EveryShardUsed(Placed(files, m, ByTotal), m) <==> Fillable(files) >= m
  {
    OrderedFacts(files);
    SortKeepsPositives(files);
    PositivesLead(Ordered(files));
    IndexRuleFills(WeightsOf(Ordered(files)), m, Positives(files));
  }

  lemma {:induction false} BucketEmpty(fs: seq<File>, a: seq<nat>, s: nat)
    requires |fs| == |a|
    ensures Bucket(fs, a, s) == [] <==> s !in a
  {
    if fs != [] {
      var n := |fs| - 1;
      BucketEmpty(fs[..n], a[..n], s);
      assert a == a[..n] + [a[n]];
    }
  }

  // ---------------------------------------------------------------- the greedy loop

  function Buckets(fs: seq<File>, a: seq<nat>, m: nat): (r: seq<seq<string>>)
    requires |fs| == |a|
    ensures |r| == m && forall s :: 0 <= s < m ==> r[s] == Bucket(fs, a, s)
  {
    seq(m, s requires 0 <= s => Bucket(fs, a, s))
  }

  function Lengths(shards: seq<seq<string>>): (r: seq<nat>)
    ensures |r| == |shards|
  {
    seq(|shards|, s requires 0 <= s < |shards| => |shards[s]|)
  }

  /** One pass of the loop: append to the lightest shard and add to its total. */
  method Place(ghost fs: seq<File>, f: File, m: nat, rule: Rule, shards: seq<seq<string>>, totals: seq<real>)
    returns (grown: seq<seq<string>>, sums: seq<real>)
    requires m > 0 && |shards| == |totals| == m && Tracks(fs, m, rule, shards, totals)
    ensures |grown| == |sums| == m && Tracks(fs + [f], m, rule, grown, sums)
  {
    var index := Pick(totals, Lengths(shards), rule, m);
    grown := shards[index := shards[index] + [f.path]];
    sums := totals[index := totals[index] + f.weight];
    SpreadStep(fs, f, m, rule, shards, totals);
  }

  /** The loop both sharders run over the ordered files. */
  method Spread(ordered: seq<File>, m: nat, rule: Rule) returns (shards: seq<seq<string>>, totals: seq<real>)
    requires m > 0
    ensures |shards| == |totals| == m
    ensures Tracks(ordered, m, rule, shards, totals)
  {
    shards := seq(m, _ => []);
    totals := seq(m, _ => 0.0);
    TracksNothing(m, rule, shards, totals);
    ghost var done: seq<File> := [];
    for i := 0 to |ordered|
      invariant done == ordered[..i]
      invariant |shards| == |totals| == m
      invariant Tracks(done, m, rule, shards, totals)
    {
      shards, totals := Place(done, ordered[i], m, rule, shards, totals);
      done := done + [ordered[i]];
    }
    assert done == ordered;
  }

  lemma TracksNothing(m: nat, rule: Rule, shards: seq<seq<string>>, totals: seq<real>)
    requires m > 0 && |shards| == |totals| == m
    requires forall s :: 0 <= s < m ==> shards[s] == [] && totals[s] == 0.0
    ensures Tracks([], m, rule, shards, totals)
  {}

  /** The lists hold what the greedy assignment of the files so far gives each shard. */
  ghost predicate Tracks(fs: seq<File>, m: nat, rule: Rule, shards: seq<seq<string>>, totals: seq<real>)
    requires m > 0
  {
    && totals == Loads(Assign(WeightsOf(fs), m, rule), WeightsOf(fs), m)
    && shards == Buckets(fs, Assign(WeightsOf(fs), m, rule), m)
  }

  lemma {:induction false} BucketLength(fs: seq<File>, a: seq<nat>, s: nat)
    requires |fs| == |a|
    ensures |Bucket(fs, a, s)| == Count(a, s)
  {
    if fs != [] {
      var n := |fs| - 1;
      BucketLength(fs[..n], a[..n], s);
    }
  }

  lemma BucketsSnoc(fs: seq<File>, a: seq<nat>, m: nat, f: File, x: nat)
    requires |fs| == |a| && x < m
    ensures Buckets(fs + [f], a + [x], m) == Buckets(fs, a, m)[x := Bucket(fs, a, x) + [f.path]]
  {
    forall s | 0 <= s < m ensures Bucket(fs + [f], a + [x], s) == Buckets(fs, a, m)[x := Bucket(fs, a, x) + [f.path]][s] {
      BucketSnoc(fs, a, f, x, s);
    }
  }

  lemma LengthsAreCounts(fs: seq<File>, a: seq<nat>, m: nat)
    requires |fs| == |a|
    ensures Lengths(Buckets(fs, a, m)) == Counts(a, m)
  {
    forall s | 0 <= s < m ensures Lengths(Buckets(fs, a, m))[s] == Count(a, s) {
      BucketLength(fs, a, s);
    }
  }

  lemma AssignMore(fs: seq<File>, f: File, m: nat, rule: Rule)
    requires m > 0
    ensures WeightsOf(fs + [f]) == WeightsOf(fs) + [f.weight]
    ensures Assign(WeightsOf(fs + [f]), m, rule)
            == Assign(WeightsOf(fs), m, rule) + [Next(Assign(WeightsOf(fs), m, rule), WeightsOf(fs), m, rule)]
  {
    assert WeightsOf(fs + [f]) == WeightsOf(fs) + [f.weight];
    AssignSnoc(WeightsOf(fs), f.weight, m, rule);
  }

  lemma ShardsMore(fs: seq<File>, f: File, a: seq<nat>, w: seq<real>, m: nat, index: nat)
    requires |fs| == |a| == |w| && index < m
    ensures Loads(a + [index], w + [f.weight], m) == Loads(a, w, m)[index := Loads(a, w, m)[index] + f.weight]
    ensures Buckets(fs + [f], a + [index], m) == Buckets(fs, a, m)[index := Buckets(fs, a, m)[index] + [f.path]]
  {
    LoadsSnoc(a, w, m, index, f.weight);
    BucketsSnoc(fs, a, m, f, index);
  }

  lemma SpreadStep(fs: seq<File>, f: File, m: nat, rule: Rule, shards: seq<seq<string>>, totals: seq<real>)
    requires m > 0 && Tracks(fs, m, rule, shards, totals)
    ensures var index := Pick(totals, Lengths(shards), rule, m);
            Tracks(fs + [f], m, rule,
                   shards[index := shards[index] + [f.path]], totals[index := totals[index] + f.weight])
  {
    var w := WeightsOf(fs);
    var a := Assign(w, m, rule);
    LengthsAreCounts(fs, a, m);
    AssignMore(fs, f, m, rule);
    ShardsMore(fs, f, a, w, m, Next(a, w, m, rule));
  }

  // ---------------------------------------------------------------- tool/flutter_test_shard.py

  /** `partitions`: the files found under the test root (none if there is no such directory), split into `count` shards. */
  method Partitions(found: Option<seq<File>>, count: int) returns (r: Result<seq<seq<string>>, Error>)
    requires found.Some? ==> Tests(found.value)
    ensures r == Failure(InvalidShardCount) <==> !(2 <= count <= 16)
    ensures r == Failure(TestDirectoryMissing) <==> 2 <= count <= 16 && found.None?
    ensures r == Failure(TestFilesMissing) <==> 2 <= count <= 16 && found.Some? && found.value == []
    ensures r == Failure(EmptyTestShard) <==>
              2 <= count <= 16 && found.Some? && found.value != [] && Fillable(found.value) < count
    ensures r.Success? <==> 2 <= count <= 16 && found.Some? && found.value != [] && Fillable(found.value) >= count
    ensures r.Success? ==> r.value == Manifests(found.value, count, ByTotal, PathLess)
  {
    if count < 2 || count > 16 {
      return Failure(InvalidShardCount);
    }
    if found.None? {
      return Failure(TestDirectoryMissing);
    }
    var files := found.value;
    if files == [] {
      return Failure(TestFilesMissing);
    }
    var ordered := Sort(files, Before);
    var shards, totals := Spread(ordered, count, ByTotal);
    var result := seq(count, s requires 0 <= s < |shards| => Sort(shards[s], PathLess));
    FlutterFills(files, count);
    forall s | 0 <= s < count ensures result[s] == [] <==> s !in Placed(files, count, ByTotal) {
      BucketEmpty(ordered, Placed(files, count, ByTotal), s);
      SortPermutes(shards[s], PathLess);
    }
    assert (exists s :: 0 <= s < count && result[s] == []) <==> !EveryShardUsed(Placed(files, count, ByTotal), count);
    if exists s :: 0 <= s < count && result[s] == [] {
      return Failure(EmptyTestShard);
    }
    return Success(result);
  }

  // ---------------------------------------------------------------- tool/server_test_shards.py

  ghost predicate IsLargest(known: map<string, real>, x: real) {
    (exists k :: k in known && known[k] == x) && forall k :: k in known ==> known[k] <= x
  }

  /** The weight predicted for files without a recorded duration. */
  method FallbackWeight(known: map<string, real>) returns (x: real)
    ensures known == map[] ==> x == 1.0
    ensures known != map[] ==> IsLargest(known, x)
  {
    if known == map[] {
      return 1.0;
    }
    var first :| first in known;
    x := known[first];
    var rest := known.Keys;
    while rest != {}
      invariant rest <= known.Keys
      invariant exists k :: k in known && known[k] == x
      invariant forall k :: k in known && k !in rest ==> known[k] <= x
    {
      var k :| k in rest;
      if known[k] > x {
        x := known[k];
      }
      rest := rest - {k};
    }
  }

  function Predicted(paths: seq<string>, known: map<string, real>, fallback: real): (fs: seq<File>)
    ensures |fs| == |paths|
    ensures forall i :: 0 <= i < |paths| ==>
              fs[i] == File(paths[i], if paths[i] in known then known[paths[i]] else fallback)
  {
    seq(|paths|, i requires 0 <= i < |paths| =>
      File(paths[i], if paths[i] in known then known[paths[i]] else fallback))
  }

  function MinOf(xs: seq<real>): (r: real)
    requires xs != []
    ensures r in xs && forall x :: x in xs ==> r <= x
  {
    var n := |xs| - 1;
    assert xs == xs[..n] + [xs[n]];
    if n == 0 then xs[0] else var r := MinOf(xs[..n]); if xs[n] < r then xs[n] else r
  }

  function MaxOf(xs: seq<real>): (r: real)
    requires xs != []
    ensures r in xs && forall x :: x in xs ==> x <= r
  {
    var n := |xs| - 1;
    assert xs == xs[..n] + [xs[n]];
    if n == 0 then xs[0] else var r := MaxOf(xs[..n]); if xs[n] > r then xs[n] else r
  }

  /** The recorded durations are too uneven for a balanced split. */
  predicate Unbalanced(totals: seq<real>)
    requires totals != []
  {
    MinOf(totals) > 0.0 && MaxOf(totals) > MinOf(totals) * 1.25
  }

  /** Uneven: every shard has work, and some shard has more than five quarters of another's. */
  lemma UnbalancedMeans(totals: seq<real>)
    requires totals != []
    ensures Unbalanced(totals) <==>
            && (forall i :: 0 <= i < |totals| ==> totals[i] > 0.0)
            && exists i, j :: 0 <= i < |totals| && 0 <= j < |totals| && 4.0 * totals[i] > 5.0 * totals[j]
  {
    var least, most := MinOf(totals), MaxOf(totals);
    var low: nat :| low < |totals| && totals[low] == least;
    var high: nat :| high < |totals| && totals[high] == most;
    assert 4.0 * totals[high] > 5.0 * totals[low] <==> most > least * 1.25;
    forall i: nat | i < |totals| ensures least <= totals[i] <= most {
      assert totals[i] in totals;
    }
  }

  /**
   `partition_test_files`: `unsafe` says whether some path fails the path rules. The returned `files` carry the
   predicted weights. A shard is never empty, so only the listed conditions are reasons to refuse.
   */
  method PartitionTestFiles(rootOk: bool, paths: seq<string>, unsafe: bool, count: int,
                            weights: Option<map<string, real>>)
    returns (r: Result<seq<seq<string>>, Error>, files: seq<File>, fallback: real)
    requires forall i, j :: 0 <= i < j < |paths| ==> paths[i] != paths[j]
    requires weights.Some? ==> forall k :: k in weights.value ==> weights.value[k] >= 0.0
    ensures var known := if weights.Some? then weights.value else map[];
            && (if known == map[] then fallback == 1.0 else IsLargest(known, fallback))
            && |files| == |paths| && Tests(files)
            && (forall i :: 0 <= i < |paths| ==>
                  && files[i].path == paths[i]
                  && files[i].weight == if paths[i] in known then known[paths[i]] else fallback)
            && (r.Success? <==>
                && rootOk && 2 <= count <= |paths| && !unsafe
                && (forall k :: k in known ==> k in paths)
                && !(weights.Some?
                     && Unbalanced(Loads(Placed(files, count, ByTotalThenCount), WeightsOf(Ordered(files)), count))))
            && (r.Success? ==> r.value == Manifests(files, count, ByTotalThenCount, CodeLess))
            && (r.Failure? ==> r.error == ServerShardsInvalid)
    ensures r.Success? ==> forall s :: 0 <= s < count ==> r.value[s] != []
  {
    var known := if weights.Some? then weights.value else map[];
    fallback := FallbackWeight(known);
    files := Predicted(paths, known, fallback);
    if !rootOk || count < 2 || |paths| < count || unsafe || exists k :: k in known && k !in paths {
      return Failure(ServerShardsInvalid), files, fallback;
    }
    var ordered := Sort(files, Before);
    var shards, totals := Spread(ordered, count, ByTotalThenCount);
    OrderedFacts(files);
    CountRuleFills(WeightsOf(ordered), count);
    forall s | 0 <= s < count ensures shards[s] != [] {
      BucketEmpty(ordered, Placed(files, count, ByTotalThenCount), s);
    }
    if weights.Some? && Unbalanced(totals) {
      return Failure(ServerShardsInvalid), files, fallback;
    }
    var result := seq(count, s requires 0 <= s < |shards| => Sort(shards[s], CodeLess));
    forall s | 0 <= s < count ensures result[s] != [] {
      SortPermutes(shards[s], CodeLess);
    }
    return Success(result), files, fallback;
  }
}
