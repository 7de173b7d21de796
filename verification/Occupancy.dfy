/** Which shards the greedy assignment leaves empty, for both tie-break rules. */
module Occupancy {
  import opened Greedy

  ghost predicate EveryShardUsed(a: seq<nat>, m: nat) {
    forall s :: 0 <= s < m ==> s in a
  }

  ghost function Used(a: seq<nat>): set<nat> {
    set s | s in a
  }

  lemma {:induction false} UsedAtMost(a: seq<nat>)
    ensures |Used(a)| <= |a|
  {
    if a != [] {
      var n := |a| - 1;
      UsedAtMost(a[..n]);
      assert a == a[..n] + [a[n]];
      assert Used(a) == Used(a[..n]) + {a[n]};
    }
  }

  lemma {:induction false} UsedInjective(a: seq<nat>)
    requires forall i, j :: 0 <= i < j < |a| ==> a[i] != a[j]
    ensures |Used(a)| == |a|
  {
    if a != [] {
      var n := |a| - 1;
      UsedInjective(a[..n]);
      assert a == a[..n] + [a[n]];
      assert Used(a) == Used(a[..n]) + {a[n]};
      assert a[n] !in Used(a[..n]);
    }
  }

  ghost function Below(m: nat): (r: set<nat>)
    ensures |r| == m && forall s :: s in r <==> 0 <= s < m
  {
    if m == 0 then {} else Below(m - 1) + {m - 1}
  }

  /** A shard holds a job exactly when its count is positive, and then its load is the sum of positive weights. */
  lemma {:induction false} CountMeansUsed(a: seq<nat>, w: seq<real>, s: nat)
    requires |a| == |w| && Weights(w)
    ensures Count(a, s) > 0 <==> s in a
    ensures s !in a ==> Load(a, w, s) == 0.0
    ensures 0.0 <= Load(a, w, s)
    ensures s in a && (forall i :: 0 <= i < |w| ==> w[i] > 0.0) ==> Load(a, w, s) > 0.0
  {
    if a != [] {
      var n := |a| - 1;
      assert a == a[..n] + [a[n]];
      CountMeansUsed(a[..n], w[..n], s);
    }
  }

  /** While shard `s` is empty, the next job goes to an empty shard: by the count, or because all weights so far are positive. */
  lemma NextWhileEmpty(a: seq<nat>, w: seq<real>, m: nat, rule: Rule, s: nat)
    requires m > 0 && |a| == |w| && Weights(w) && s < m && s !in a
    requires rule == ByTotal ==> forall i :: 0 <= i < |w| ==> w[i] > 0.0
    ensures Next(a, w, m, rule) !in a
  {
    var t := Next(a, w, m, rule);
    CountMeansUsed(a, w, s);
    CountMeansUsed(a, w, t);
    assert t == Pick(Loads(a, w, m), Counts(a, m), rule, m);
    assert Loads(a, w, m)[s] == 0.0 && Counts(a, m)[s] == 0;
    assert Loads(a, w, m)[t] <= Loads(a, w, m)[s];
  }

  /** As long as a shard stays empty, all jobs sit on different shards. */
  lemma {:induction false} DistinctWhileEmpty(w: seq<real>, m: nat, rule: Rule, s: nat)
    requires m > 0 && Weights(w) && s < m && s !in Assign(w, m, rule)
    requires rule == ByTotal ==> forall i :: 0 <= i < |w| ==> w[i] > 0.0
    ensures var a := Assign(w, m, rule); forall i, j :: 0 <= i < j < |a| ==> a[i] != a[j]
  {
    if w != [] {
      var n := |w| - 1;
      var a, b := Assign(w, m, rule), Assign(w[..n], m, rule);
      assert a == b + [Next(b, w[..n], m, rule)];
      assert forall x :: x in b ==> x in a;
      DistinctWhileEmpty(w[..n], m, rule, s);
      NextWhileEmpty(b, w[..n], m, rule, s);
    }
  }

  /** Jobs on different shards, none of them on `s`, are fewer than the shards; one fewer, and they fill all others. */
  lemma FewerThanShards(a: seq<nat>, m: nat, s: nat)
    requires (forall i :: 0 <= i < |a| ==> a[i] < m) && s < m && s !in a
    requires forall i, j :: 0 <= i < j < |a| ==> a[i] != a[j]
    ensures |a| < m
    ensures |a| == m - 1 ==> forall t :: 0 <= t < m && t != s ==> t in a
  {
    UsedInjective(a);
    var rest := Below(m) - {s};
    assert Used(a) <= rest;
    SubsetSize(Used(a), rest);
    if |a| == m - 1 {
      SubsetSize(rest, Used(a));
      forall t | 0 <= t < m && t != s ensures t in a {
        assert t in rest;
      }
    }
  }

  /** So an empty shard means fewer jobs than shards. */
  lemma EmptyShardMeansFewJobs(w: seq<real>, m: nat, rule: Rule, s: nat)
    requires m > 0 && Weights(w) && s < m && s !in Assign(w, m, rule)
    requires rule == ByTotal ==> forall i :: 0 <= i < |w| ==> w[i] > 0.0
    ensures |w| < m
    ensures |w| == m - 1 ==> forall t :: 0 <= t < m && t != s ==> t in Assign(w, m, rule)
  {
    DistinctWhileEmpty(w, m, rule, s);
    FewerThanShards(Assign(w, m, rule), m, s);
  }

  lemma SubsetSize(x: set<nat>, y: set<nat>)
    ensures x <= y ==> |x| <= |y|
    ensures y <= x && |x| <= |y| ==> x == y
  {
    if x <= y {
      assert y == x + (y - x);
    }
    if y <= x && |x| <= |y| {
      assert x == y + (x - y);
    }
  }

  /** Enough used shards need enough jobs. */
  lemma AllUsedNeedsJobs(a: seq<nat>, m: nat)
    requires EveryShardUsed(a, m)
    ensures m <= |Used(a)| <= |a|
  {
    assert Below(m) <= Used(a);
    SubsetSize(Below(m), Used(a));
    UsedAtMost(a);
  }

  /** Breaking ties by count fills every shard exactly when there are enough files, whatever their weights. */
  lemma CountRuleFills(w: seq<real>, m: nat)
    requires m > 0 && Weights(w)
    ensures EveryShardUsed(Assign(w, m, ByTotalThenCount), m) <==> |w| >= m
  {
    var a := Assign(w, m, ByTotalThenCount);
    if EveryShardUsed(a, m) {
      AllUsedNeedsJobs(a, m);
    }
    if |w| >= m {
      forall s | 0 <= s < m ensures s in a {
        if s !in a {
          EmptyShardMeansFewJobs(w, m, ByTotalThenCount, s);
        }
      }
    }
  }

  // ---------------------------------------------------------------- ties by index alone

  /** Job weights in descending order: first `p` positive ones, then zeros. */
  ghost predicate PositivePrefix(w: seq<real>, p: nat) {
    && p <= |w|
    && (forall i :: 0 <= i < p ==> w[i] > 0.0)
    && (forall i :: p <= i < |w| ==> w[i] == 0.0)
  }

  lemma {:induction false} CountsIrrelevant(totals: seq<real>, c: seq<nat>, d: seq<nat>, m: nat)
    requires 0 < m <= |totals| == |c| == |d|
    ensures Pick(totals, c, ByTotal, m) == Pick(totals, d, ByTotal, m)
  {
    if m > 1 {
      CountsIrrelevant(totals, c, d, m - 1);
    }
  }

  /** The totals after the first `k` jobs. */
  function LoadsAfter(w: seq<real>, m: nat, k: nat): seq<real>
    requires m > 0 && k <= |w|
  {
    Loads(Assign(w[..k], m, ByTotal), w[..k], m)
  }

  lemma ZeroKeepsLoads(w: seq<real>, m: nat, k: nat)
    requires m > 0 && k < |w| && w[k] == 0.0
    ensures LoadsAfter(w, m, k + 1) == LoadsAfter(w, m, k)
  {
    var q := w[..k + 1];
    var a, b := Assign(q, m, ByTotal), Assign(w[..k], m, ByTotal);
    assert q[..k] == w[..k];
    AssignPrefix(q, m, ByTotal, k);
    forall s | 0 <= s < m ensures Load(a, q, s) == Load(b, w[..k], s) {
      assert a[..k] == b;
    }
  }

  lemma SameLoadsSameNext(a: seq<nat>, w: seq<real>, b: seq<nat>, u: seq<real>, m: nat)
    requires m > 0 && |a| == |w| && |b| == |u| && Loads(a, w, m) == Loads(b, u, m)
    ensures Next(a, w, m, ByTotal) == Next(b, u, m, ByTotal)
  {
    CountsIrrelevant(Loads(a, w, m), Counts(a, m), Counts(b, m), m);
  }

  /** Zero-weight jobs change no total. */
  lemma {:induction false} ZerosKeepLoads(w: seq<real>, m: nat, p: nat, k: nat)
    requires m > 0 && (forall i :: p <= i < |w| ==> w[i] == 0.0) && p <= k < |w|
    ensures LoadsAfter(w, m, k) == LoadsAfter(w, m, p)
  {
    if k > p {
      ZerosKeepLoads(w, m, p, k - 1);
      ZeroKeepsLoads(w, m, k - 1);
    }
  }

  /** So all of them go to the same shard. */
  lemma ZerosShareShard(w: seq<real>, m: nat, p: nat, k: nat)
    requires m > 0 && PositivePrefix(w, p) && p <= k < |w|
    ensures Assign(w, m, ByTotal)[k] == Assign(w, m, ByTotal)[p]
  {
    var b, c := Assign(w[..k], m, ByTotal), Assign(w[..p], m, ByTotal);
    ZerosKeepLoads(w, m, p, k);
    SameLoadsSameNext(b, w[..k], c, w[..p], m);
    AssignStep(w, m, ByTotal, k);
    AssignStep(w, m, ByTotal, p);
  }

  /** The shards in use: those of the positive jobs, and one more if there is a zero-weight job. */
  lemma UsedWithZeros(w: seq<real>, m: nat, p: nat)
    requires m > 0 && PositivePrefix(w, p)
    ensures |Used(Assign(w, m, ByTotal))| <= p + if p < |w| then 1 else 0
  {
    var a := Assign(w, m, ByTotal);
    UsedAtMost(a[..p]);
    if p < |w| {
      forall k | p <= k < |w| ensures a[k] == a[p] {
        ZerosShareShard(w, m, p, k);
      }
      assert Used(a) <= Used(a[..p]) + {a[p]} by {
        forall i | 0 <= i < |a| ensures a[i] in Used(a[..p]) + {a[p]} {
          if i < p {
            assert a[..p][i] == a[i];
          }
        }
      }
      SubsetSize(Used(a), Used(a[..p]) + {a[p]});
    } else {
      assert a[..p] == a;
    }
  }

  /** If all but one shard are in use by positive jobs, the first zero-weight job takes the last one. */
  lemma FirstZeroFillsGap(w: seq<real>, m: nat, p: nat, s: nat)
    requires m > 0 && Weights(w) && PositivePrefix(w, p) && p < |w| && p == m - 1 && s < m
    ensures s in Assign(w, m, ByTotal)
  {
    var a, q := Assign(w, m, ByTotal), w[..p];
    var b := Assign(q, m, ByTotal);
    AssignStep(w, m, ByTotal, p);
    if s !in b {
      EmptyShardMeansFewJobs(q, m, ByTotal, s);
      CountMeansUsed(b, q, s);
      var t := Next(b, q, m, ByTotal);
      CountMeansUsed(b, q, t);
      assert Load(b, q, t) <= Load(b, q, s);
      assert t == s;
      assert a[p] == s;
    } else {
      assert a[..p] == b;
    }
  }

  /**
   With ties broken by index alone, every shard is used exactly when the files of positive weight,
   plus one if there is any file of weight zero, are at least as many as the shards.
   */
  lemma IndexRuleFills(w: seq<real>, m: nat, p: nat)
    requires m > 0 && Weights(w) && PositivePrefix(w, p)
    ensures EveryShardUsed(Assign(w, m, ByTotal), m) <==> p + (if p < |w| then 1 else 0) >= m
  {
    var a := Assign(w, m, ByTotal);
    if EveryShardUsed(a, m) {
      AllUsedNeedsJobs(a, m);
      UsedWithZeros(w, m, p);
    }
    if p >= m {
      AssignPrefix(w, m, ByTotal, p);
      forall s | 0 <= s < m ensures s in a {
        if s !in a[..p] {
          EmptyShardMeansFewJobs(w[..p], m, ByTotal, s);
        }
      }
    } else if p == m - 1 && p < |w| {
      forall s | 0 <= s < m ensures s in a {
        FirstZeroFillsGap(w, m, p, s);
      }
    }
  }
}
