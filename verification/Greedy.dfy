/**
 The greedy longest-first assignment behind both test sharders, and how far it can be from
 the best assignment. A job is one test file; its weight is a non-negative real, which covers
 the byte counts of the Flutter sharder and the predicted seconds of the Server sharder.
 */
module Greedy {

  /** How ties between shards with the same total are broken; the shard index decides last. */
  datatype Rule = ByTotal | ByTotalThenCount

  ghost predicate Weights(w: seq<real>) {
    forall i :: 0 <= i < |w| ==> w[i] >= 0.0
  }

  ghost predicate Descending(w: seq<real>) {
    forall i, j :: 0 <= i < j < |w| ==> w[i] >= w[j]
  }

  /** `a[i]` is the shard of job `i`. */
  ghost predicate Assignment(a: seq<nat>, w: seq<real>, m: nat) {
    |a| == |w| && forall i :: 0 <= i < |a| ==> a[i] < m
  }

  function Load(a: seq<nat>, w: seq<real>, s: nat): real
    requires |a| == |w|
  {
    if a == [] then 0.0
    else
      var n := |a| - 1;
      Load(a[..n], w[..n], s) + if a[n] == s then w[n] else 0.0
  }

  function Count(a: seq<nat>, s: nat): nat {
    if a == [] then 0
    else
      var n := |a| - 1;
      Count(a[..n], s) + if a[n] == s then 1 else 0
  }

  function Total(w: seq<real>): real {
    if w == [] then 0.0 else Total(w[..|w| - 1]) + w[|w| - 1]
  }

  /** The heaviest of the first `m` shards. */
  function MaxLoad(a: seq<nat>, w: seq<real>, m: nat): real
    requires |a| == |w| && m > 0
  {
    var last := Load(a, w, m - 1);
    if m == 1 then last
    else
      var rest := MaxLoad(a, w, m - 1);
      if last > rest then last else rest
  }

  /** Whether shard `s` comes before shard `t`, leaving the index aside. */
  predicate Lighter(totals: seq<real>, counts: seq<nat>, rule: Rule, s: nat, t: nat)
    requires |totals| == |counts| && s < |totals| && t < |totals|
  {
    || totals[s] < totals[t]
    || (totals[s] == totals[t] && rule == ByTotalThenCount && counts[s] < counts[t])
  }

  /** The shard that `min(range(m), key=...)` picks: the first one that no shard is lighter than. */
  function Pick(totals: seq<real>, counts: seq<nat>, rule: Rule, m: nat): (s: nat)
    requires 0 < m <= |totals| == |counts|
    ensures s < m
    ensures forall t :: 0 <= t < m ==>
              totals[s] <= totals[t] && (totals[s] == totals[t] && rule == ByTotalThenCount ==> counts[s] <= counts[t])
    ensures forall t :: 0 <= t < s ==>
              totals[s] < totals[t] || (totals[s] == totals[t] && rule == ByTotalThenCount && counts[s] < counts[t])
  {
    if m == 1 then 0
    else
      var s := Pick(totals, counts, rule, m - 1);
      if Lighter(totals, counts, rule, m - 1, s) then m - 1 else s
  }

  function Loads(a: seq<nat>, w: seq<real>, m: nat): (r: seq<real>)
    requires |a| == |w|
    ensures |r| == m && forall s :: 0 <= s < m ==> r[s] == Load(a, w, s)
  {
    seq(m, s requires 0 <= s => Load(a, w, s))
  }

  function Counts(a: seq<nat>, m: nat): (r: seq<nat>)
    ensures |r| == m && forall s :: 0 <= s < m ==> r[s] == Count(a, s)
  {
    seq(m, s requires 0 <= s => Count(a, s))
  }

  /** The shard of the next job, given where the earlier jobs went. */
  function Next(a: seq<nat>, w: seq<real>, m: nat, rule: Rule): (s: nat)
    requires |a| == |w| && m > 0
    ensures s < m
    ensures forall t :: 0 <= t < m ==> Load(a, w, s) <= Load(a, w, t)
  {
    var totals := Loads(a, w, m);
    var s := Pick(totals, Counts(a, m), rule, m);
    assert forall t :: 0 <= t < m ==> totals[t] == Load(a, w, t);
    s
  }

  /** The greedy assignment of jobs in the given order. */
  function Assign(w: seq<real>, m: nat, rule: Rule): (a: seq<nat>)
    requires m > 0
    ensures Assignment(a, w, m)
  {
    if w == [] then []
    else
      var n := |w| - 1;
      var a := Assign(w[..n], m, rule);
      a + [Next(a, w[..n], m, rule)]
  }

  lemma {:induction false} AssignPrefix(w: seq<real>, m: nat, rule: Rule, k: nat)
    requires m > 0 && k <= |w|
    ensures Assign(w, m, rule)[..k] == Assign(w[..k], m, rule)
  {
    if k == |w| {
      assert w[..k] == w;
    } else {
      var n := |w| - 1;
      AssignPrefix(w[..n], m, rule, k);
      assert w[..n][..k] == w[..k];
      assert Assign(w, m, rule)[..k] == Assign(w[..n], m, rule)[..k];
    }
  }

  /** The greedy choice for each job is made on the assignment of the jobs before it. */
  lemma AssignStep(w: seq<real>, m: nat, rule: Rule, k: nat)
    requires m > 0 && k < |w|
    ensures Assign(w, m, rule)[..k] == Assign(w[..k], m, rule)
    ensures Assign(w, m, rule)[k] == Next(Assign(w[..k], m, rule), w[..k], m, rule)
  {
    AssignPrefix(w, m, rule, k);
    AssignPrefix(w, m, rule, k + 1);
    assert w[..k + 1][..k] == w[..k];
    assert Assign(w, m, rule)[k] == Assign(w, m, rule)[..k + 1][k];
  }

  /** Each job goes to a shard of least total among those before it, then, by the rule, of least count, then of least index. */
  lemma GreedyChoice(w: seq<real>, m: nat, rule: Rule, k: nat, t: nat)
    requires m > 0 && k < |w| && t < m
    ensures var a := Assign(w, m, rule);
            var s, total, count := a[k], (x: nat) => Load(a[..k], w[..k], x), (x: nat) => Count(a[..k], x);
            match rule
            case ByTotal => total(s) < total(t) || (total(s) == total(t) && s <= t)
            case ByTotalThenCount =>
              total(s) < total(t) || (total(s) == total(t) && (count(s) < count(t) || (count(s) == count(t) && s <= t)))
  {
    var a := Assign(w[..k], m, rule);
    AssignStep(w, m, rule, k);
    var s := Pick(Loads(a, w[..k], m), Counts(a, m), rule, m);
    assert Loads(a, w[..k], m)[s] == Load(a, w[..k], s) && Loads(a, w[..k], m)[t] == Load(a, w[..k], t);
    assert Counts(a, m)[s] == Count(a, s) && Counts(a, m)[t] == Count(a, t);
  }

  /** The largest load is the load of some shard, and no shard has more. */
  lemma {:induction false} MaxLoadIsLargest(a: seq<nat>, w: seq<real>, m: nat) returns (s: nat)
    requires |a| == |w| && m > 0
    ensures s < m && Load(a, w, s) == MaxLoad(a, w, m)
    ensures forall t :: 0 <= t < m ==> Load(a, w, t) <= MaxLoad(a, w, m)
  {
    s := m - 1;
    if m > 1 {
      var rest := MaxLoadIsLargest(a, w, m - 1);
      if Load(a, w, m - 1) <= MaxLoad(a, w, m - 1) {
        s := rest;
      }
    }
  }

  lemma LoadSnoc(a: seq<nat>, w: seq<real>, x: nat, v: real, s: nat)
    requires |a| == |w|
    ensures Load(a + [x], w + [v], s) == Load(a, w, s) + if x == s then v else 0.0
  {
    assert (a + [x])[..|a|] == a && (w + [v])[..|a|] == w;
  }

  lemma LoadsSnoc(a: seq<nat>, w: seq<real>, m: nat, x: nat, v: real)
    requires |a| == |w| && x < m
    ensures Loads(a + [x], w + [v], m) == Loads(a, w, m)[x := Load(a, w, x) + v]
  {
    var b, u := a + [x], w + [v];
    forall s | 0 <= s < m ensures Loads(b, u, m)[s] == Loads(a, w, m)[x := Load(a, w, x) + v][s] {
      LoadSnoc(a, w, x, v, s);
    }
  }

  lemma AssignSnoc(w: seq<real>, v: real, m: nat, rule: Rule)
    requires m > 0
    ensures Assign(w + [v], m, rule) == Assign(w, m, rule) + [Next(Assign(w, m, rule), w, m, rule)]
  {
    assert (w + [v])[..|w|] == w;
  }

  // ---------------------------------------------------------------- sums over shards

  function LoadSum(a: seq<nat>, w: seq<real>, m: nat): real
    requires |a| == |w|
  {
    if m == 0 then 0.0 else LoadSum(a, w, m - 1) + Load(a, w, m - 1)
  }

  /** Adding job `n` raises the loads of the first `m` shards by its weight, if it went to one of them. */
  lemma {:induction false} LoadSumStep(a: seq<nat>, w: seq<real>, m: nat)
    requires |a| == |w| && a != []
    ensures LoadSum(a, w, m) == LoadSum(a[..|a| - 1], w[..|a| - 1], m) + if a[|a| - 1] < m then w[|a| - 1] else 0.0
  {
    if m > 0 {
      LoadSumStep(a, w, m - 1);
    }
  }

  /** Conservation: the shard loads add up to the weight of all jobs. */
  lemma {:induction false} LoadsConserve(a: seq<nat>, w: seq<real>, m: nat)
    requires Assignment(a, w, m)
    ensures LoadSum(a, w, m) == Total(w)
  {
    if a == [] {
      EmptyLoadSum(w, m);
    } else {
      var n := |a| - 1;
      LoadSumStep(a, w, m);
      LoadsConserve(a[..n], w[..n], m);
    }
  }

  lemma {:induction false} EmptyLoadSum(w: seq<real>, m: nat)
    requires w == []
    ensures LoadSum([], w, m) == 0.0
  {
    if m > 0 {
      EmptyLoadSum(w, m - 1);
    }
  }

  /** `m * x` as a repeated sum, which keeps the counting arguments linear. */
  function Scale(m: nat, x: real): real {
    if m == 0 then 0.0 else Scale(m - 1, x) + x
  }

  lemma {:induction false} ScaleIsProduct(m: nat, x: real)
    ensures Scale(m, x) == m as real * x
  {
    if m > 0 {
      var k := (m - 1) as real;
      ScaleIsProduct(m - 1, x);
      assert m as real == k + 1.0;
      assert (k + 1.0) * x == k * x + x;
    }
  }

  /** If every one of the first `m` loads is between the bounds, so is their average. */
  lemma {:induction false} LoadSumBounds(a: seq<nat>, w: seq<real>, m: nat, lo: real, hi: real)
    requires |a| == |w|
    requires forall s :: 0 <= s < m ==> lo <= Load(a, w, s) <= hi
    ensures Scale(m, lo) <= LoadSum(a, w, m) <= Scale(m, hi)
  {
    if m > 0 {
      LoadSumBounds(a, w, m - 1, lo, hi);
    }
  }

  lemma {:induction false} MaxLoadBounds(a: seq<nat>, w: seq<real>, m: nat)
    requires |a| == |w| && m > 0
    ensures forall s :: 0 <= s < m ==> Load(a, w, s) <= MaxLoad(a, w, m)
    ensures exists s :: 0 <= s < m && Load(a, w, s) == MaxLoad(a, w, m)
  {
    if m > 1 {
      MaxLoadBounds(a, w, m - 1);
    } else {
      assert Load(a, w, 0) == MaxLoad(a, w, m);
    }
  }

  /** Later jobs only add to a shard. */
  lemma {:induction false} LoadGrows(a: seq<nat>, w: seq<real>, k: nat, s: nat)
    requires |a| == |w| && Weights(w) && k <= |a|
    ensures 0.0 <= Load(a[..k], w[..k], s) <= Load(a, w, s)
  {
    if a == [] {
      assert a[..k] == [];
    } else {
      var n := |a| - 1;
      if k == |a| {
        assert a[..k] == a && w[..k] == w;
        LoadGrows(a[..n], w[..n], n, s);
        assert a[..n][..n] == a[..n] && w[..n][..n] == w[..n];
      } else {
        LoadGrows(a[..n], w[..n], k, s);
        assert a[..n][..k] == a[..k] && w[..n][..k] == w[..k];
      }
    }
  }

  lemma {:induction false} PrefixUnroll(a: seq<nat>, w: seq<real>, l: nat, s: nat)
    requires |a| == |w| && l < |a|
    ensures Load(a[..l + 1], w[..l + 1], s) == Load(a[..l], w[..l], s) + if a[l] == s then w[l] else 0.0
  {
    assert a[..l + 1][..l] == a[..l] && w[..l + 1][..l] == w[..l];
  }

  /** The last job a shard received carries its whole load. */
  lemma {:induction false} LastJob(a: seq<nat>, w: seq<real>, s: nat) returns (l: nat)
    requires |a| == |w| && Load(a, w, s) != 0.0
    ensures l < |a| && a[l] == s
    ensures Load(a, w, s) == Load(a[..l], w[..l], s) + w[l]
  {
    var n := |a| - 1;
    if a[n] == s {
      l := n;
    } else {
      l := LastJob(a[..n], w[..n], s);
      assert a[..n][..l] == a[..l] && w[..n][..l] == w[..l];
    }
  }

  /** The shard that received job `l` was the lightest at that point. */
  lemma PickedLightest(a: seq<nat>, w: seq<real>, m: nat, rule: Rule, l: nat)
    requires m > 0 && l < |w| && a == Assign(w, m, rule)
    ensures a[l] < m
    ensures forall s :: 0 <= s < m ==> Load(a[..l], w[..l], a[l]) <= Load(a[..l], w[..l], s)
  {
    AssignStep(w, m, rule, l);
    var p, q := a[..l], w[..l];
    assert a[l] == Next(p, q, m, rule);
    forall s | 0 <= s < m ensures Load(p, q, a[l]) <= Load(p, q, s) {}
  }

  /** The lightest shard is no heavier than the average. */
  lemma LightestBelowAverage(a: seq<nat>, w: seq<real>, m: nat, s: nat)
    requires m > 0 && Assignment(a, w, m) && s < m
    requires forall t :: 0 <= t < m ==> Load(a, w, s) <= Load(a, w, t)
    ensures Scale(m, Load(a, w, s)) <= Total(w)
  {
    MaxLoadBounds(a, w, m);
    LoadSumBounds(a, w, m, Load(a, w, s), MaxLoad(a, w, m));
    LoadsConserve(a, w, m);
  }

  // ---------------------------------------------------------------- the list-scheduling bound

  /** `m * heaviest <= total + (m-1) * largest` */
  ghost predicate WithinOneJob(m: real, heaviest: real, total: real, largest: real) {
    m * heaviest <= total + (m - 1.0) * largest
  }

  /** The last job of the heaviest shard, and what lay under it when it was placed. */
  lemma CriticalJob(w: seq<real>, m: nat, rule: Rule) returns (l: nat, under: real)
    requires m > 0 && MaxLoad(Assign(w, m, rule), w, m) != 0.0
    ensures l < |w|
    ensures var a := Assign(w, m, rule); under == Load(a[..l], w[..l], a[l])
    ensures MaxLoad(Assign(w, m, rule), w, m) == under + w[l]
    ensures Scale(m, under) <= Total(w[..l])
  {
    var a := Assign(w, m, rule);
    MaxLoadBounds(a, w, m);
    var s :| 0 <= s < m && Load(a, w, s) == MaxLoad(a, w, m);
    l := LastJob(a, w, s);
    under := Load(a[..l], w[..l], s);
    PickedLightest(a, w, m, rule, l);
    LightestBelowAverage(a[..l], w[..l], m, s);
  }

  /** In any order, no shard exceeds the average by more than (m-1)/m of one job. */
  lemma ListBound(w: seq<real>, m: nat, rule: Rule, largest: real)
    requires m > 0 && Weights(w)
    requires largest >= 0.0 && forall i :: 0 <= i < |w| ==> w[i] <= largest
    ensures WithinOneJob(m as real, MaxLoad(Assign(w, m, rule), w, m), Total(w), largest)
  {
    var heaviest := MaxLoad(Assign(w, m, rule), w, m);
    TotalGrows(w, 0);
    if heaviest == 0.0 {
      ScaleIsProduct(m, 0.0);
      ListArithmetic(m, heaviest, 0.0, 0.0, largest, 0.0, Total(w));
    } else {
      var l, under := CriticalJob(w, m, rule);
      TotalGrows(w, l + 1);
      TotalUnroll(w, l);
      ListArithmetic(m, heaviest, under, w[l], largest, Total(w[..l]), Total(w));
    }
  }

  lemma TotalUnroll(w: seq<real>, l: nat)
    requires l < |w|
    ensures Total(w[..l + 1]) == Total(w[..l]) + w[l]
  {
    assert w[..l + 1][..l] == w[..l];
  }

  lemma ListArithmetic(m: nat, heaviest: real, load: real, last: real, largest: real, before: real, total: real)
    requires m >= 1 && last <= largest && before + last <= total && heaviest == load + last
    requires Scale(m, load) <= before
    ensures WithinOneJob(m as real, heaviest, total, largest)
  {
    ScaleIsProduct(m, load);
    ListProduct(m as real, load, last, largest);
  }

  lemma ListProduct(k: real, load: real, last: real, largest: real)
    requires k >= 1.0 && last <= largest
    ensures k * (load + last) <= k * load + last + (k - 1.0) * largest
  {
    NonNegativeProduct(k - 1.0, largest - last);
    assert (k - 1.0) * (largest - last) == (k - 1.0) * largest - (k * last - last);
    assert k * (load + last) == k * load + k * last;
  }

  lemma NonNegativeProduct(x: real, y: real)
    requires x >= 0.0 && y >= 0.0
    ensures x * y >= 0.0
  {}

  lemma {:induction false} TotalGrows(w: seq<real>, k: nat)
    requires Weights(w) && k <= |w|
    ensures 0.0 <= Total(w[..k]) <= Total(w)
  {
    if w == [] {
      assert w[..k] == [];
    } else {
      var n := |w| - 1;
      if k == |w| {
        assert w[..k] == w;
        TotalGrows(w[..n], n);
        assert w[..n][..n] == w[..n];
      } else {
        TotalGrows(w[..n], k);
        assert w[..n][..k] == w[..k];
      }
    }
  }

  // ---------------------------------------------------------------- Graham's bound

  /**
   When no job fits beside two others (every weight exceeds cap/3), a job is charged 2 if nothing
   can share a shard with it (together with the smallest weight it exceeds the cap) and 1 otherwise.
   */
  function Charges(w: seq<real>, small: real, cap: real): (c: seq<real>)
    ensures |c| == |w|
    ensures forall i :: 0 <= i < |w| ==> c[i] == if w[i] + small > cap then 2.0 else 1.0
  {
    seq(|w|, i requires 0 <= i < |w| => if w[i] + small > cap then 2.0 else 1.0)
  }

  lemma ChargesPrefix(w: seq<real>, small: real, cap: real, k: nat)
    requires k <= |w|
    ensures Charges(w[..k], small, cap) == Charges(w, small, cap)[..k]
  {}

  /** A shard that stays within the cap is charged at most 2. */
  lemma {:induction false} ChargeAtMostTwo(a: seq<nat>, w: seq<real>, s: nat, small: real, cap: real)
    requires |a| == |w| && Weights(w) && small >= 0.0
    requires forall i :: 0 <= i < |w| ==> 3.0 * w[i] > cap && w[i] >= small
    ensures var load, c := Load(a, w, s), Load(a, Charges(w, small, cap), s);
            || (c == 0.0 && load == 0.0)
            || (c == 1.0 && 3.0 * load > cap && load >= small)
            || (c == 2.0 && (3.0 * load > 2.0 * cap || load + small > cap))
            || load > cap
  {
    if a != [] {
      var n := |a| - 1;
      ChargesPrefix(w, small, cap, n);
      ChargeAtMostTwo(a[..n], w[..n], s, small, cap);
    }
  }

  /** A shard to which the smallest job no longer fits is charged at least 2. */
  lemma {:induction false} ChargeAtLeastTwo(a: seq<nat>, w: seq<real>, s: nat, small: real, cap: real)
    requires |a| == |w| && small <= cap
    ensures var load, c := Load(a, w, s), Load(a, Charges(w, small, cap), s);
            || (c == 0.0 && load == 0.0)
            || (c == 1.0 && load + small <= cap)
            || c >= 2.0
  {
    if a != [] {
      var n := |a| - 1;
      ChargesPrefix(w, small, cap, n);
      ChargeAtLeastTwo(a[..n], w[..n], s, small, cap);
    }
  }

  /** If the smallest job fits on no shard, the jobs already placed are charged at least 2 per shard. */
  lemma FullShardsCharge(a: seq<nat>, w: seq<real>, m: nat, small: real, cap: real)
    requires m > 0 && Assignment(a, w, m) && small <= cap
    requires forall s :: 0 <= s < m ==> Load(a, w, s) + small > cap
    ensures Total(Charges(w, small, cap)) >= Scale(m, 2.0)
  {
    var c := Charges(w, small, cap);
    forall s | 0 <= s < m ensures 2.0 <= Load(a, c, s) <= MaxLoad(a, c, m) {
      ChargeAtLeastTwo(a, w, s, small, cap);
      MaxLoadBounds(a, c, m);
    }
    LoadSumBounds(a, c, m, 2.0, MaxLoad(a, c, m));
    LoadsConserve(a, c, m);
  }

  /** Jobs above a third of the cap that some assignment places within it are charged at most 2 per shard. */
  lemma FeasibleCharge(a: seq<nat>, w: seq<real>, m: nat, small: real, cap: real)
    requires Assignment(a, w, m) && Weights(w) && small >= 0.0
    requires forall i :: 0 <= i < |w| ==> 3.0 * w[i] > cap && w[i] >= small
    requires forall s :: 0 <= s < m ==> Load(a, w, s) <= cap
    ensures Total(Charges(w, small, cap)) <= Scale(m, 2.0)
  {
    var c := Charges(w, small, cap);
    forall s | 0 <= s < m ensures 0.0 <= Load(a, c, s) <= 2.0 {
      ChargeAtMostTwo(a, w, s, small, cap);
    }
    LoadSumBounds(a, c, m, 0.0, 2.0);
    LoadsConserve(a, c, m);
  }

  /**
   If the first `l+1` jobs all exceed a third of what another assignment needs, then the shard
   chosen for job `l` stays within what that assignment needs: otherwise the first `l` jobs alone
   are charged 2 per shard, and the other assignment has to place one more.
   */
  lemma LargeJobsFit(w: seq<real>, m: nat, rule: Rule, l: nat, other: seq<nat>, cap: real)
    requires m > 0 && Weights(w) && Descending(w) && l < |w|
    requires Assignment(other, w, m) && cap == MaxLoad(other, w, m)
    requires 3.0 * w[l] > cap
    ensures var a := Assign(w, m, rule); Load(a[..l], w[..l], a[l]) + w[l] <= cap
  {
    var a, small := Assign(w, m, rule), w[l];
    if Load(a[..l], w[..l], a[l]) + small > cap {
      JobWithinMax(other, w, m, l);
      PickedLightest(a, w, m, rule, l);
      FullShardsCharge(a[..l], w[..l], m, small, cap);
      var o, u := other[..l + 1], w[..l + 1];
      assert u[..l] == w[..l];
      ChargesPrefix(u, small, cap, l);
      forall s | 0 <= s < m ensures Load(o, u, s) <= cap {
        MaxLoadBounds(other, w, m);
        LoadGrows(other, w, l + 1, s);
      }
      FeasibleCharge(o, u, m, small, cap);
      assert false;
    }
  }

  lemma JobWithinMax(a: seq<nat>, w: seq<real>, m: nat, l: nat)
    requires m > 0 && Weights(w) && Assignment(a, w, m) && l < |w|
    ensures w[l] <= MaxLoad(a, w, m)
  {
    MaxLoadBounds(a, w, m);
    LoadGrows(a, w, l + 1, a[l]);
    PrefixUnroll(a, w, l, a[l]);
    LoadGrows(a, w, l, a[l]);
  }

  /** `heaviest <= (4/3 - 1/(3m)) * best`, without the division. */
  ghost predicate WithinFourThirds(m: real, heaviest: real, best: real) {
    3.0 * m * heaviest <= (4.0 * m - 1.0) * best
  }

  /**
   Graham's bound for longest-first assignment: against every assignment of the same jobs to the
   same number of shards, the heaviest greedy shard is within a factor 4/3 - 1/(3m).
   */
  lemma GrahamBound(w: seq<real>, m: nat, rule: Rule, other: seq<nat>)
    requires m > 0 && Weights(w) && Descending(w) && Assignment(other, w, m)
    ensures WithinFourThirds(m as real, MaxLoad(Assign(w, m, rule), w, m), MaxLoad(other, w, m))
  {
    var heaviest, cap := MaxLoad(Assign(w, m, rule), w, m), MaxLoad(other, w, m);
    OthersCarryPrefix(w, m, other, 0);
    if heaviest == 0.0 {
      GrahamArithmetic(m, heaviest, 0.0, 0.0, 0.0, cap);
    } else {
      var l, under := CriticalJob(w, m, rule);
      if 3.0 * w[l] > cap {
        LargeJobsFit(w, m, rule, l, other, cap);
        GrahamArithmetic(m, heaviest, under, w[l], 0.0, cap);
      } else {
        OthersCarryPrefix(w, m, other, l + 1);
        TotalUnroll(w, l);
        GrahamArithmetic(m, heaviest, under, w[l], Total(w[..l]), cap);
      }
    }
  }

  lemma GrahamArithmetic(m: nat, heaviest: real, load: real, last: real, before: real, cap: real)
    requires m >= 1 && cap >= 0.0 && heaviest == load + last
    requires heaviest <= cap || (Scale(m, load) <= before && before + last <= Scale(m, cap) && 3.0 * last <= cap)
    ensures WithinFourThirds(m as real, heaviest, cap)
  {
    var k := m as real;
    if heaviest <= cap {
      BoundedArithmetic(k, heaviest, cap);
    } else {
      ScaleIsProduct(m, cap);
      ListArithmetic(m, heaviest, load, last, cap / 3.0, before, k * cap);
      assert (k - 1.0) * (cap / 3.0) == (k * cap - cap) / 3.0;
    }
  }

  lemma BoundedArithmetic(m: real, heaviest: real, cap: real)
    requires m >= 1.0 && heaviest <= cap && cap >= 0.0
    ensures WithinFourThirds(m, heaviest, cap)
  {
    NonNegativeProduct(m, cap - heaviest);
    assert m * (cap - heaviest) == m * cap - m * heaviest;
    NonNegativeProduct(m - 1.0, cap);
    assert (m - 1.0) * cap == m * cap - cap;
  }

  lemma OthersCarryPrefix(w: seq<real>, m: nat, other: seq<nat>, k: nat)
    requires m > 0 && Weights(w) && Assignment(other, w, m) && k <= |w|
    ensures MaxLoad(other, w, m) >= 0.0
    ensures Total(w[..k]) <= Scale(m, MaxLoad(other, w, m))
  {
    MaxLoadBounds(other, w, m);
    LoadGrows(other, w, k, 0);
    forall s | 0 <= s < m ensures 0.0 <= Load(other[..k], w[..k], s) <= MaxLoad(other, w, m) {
      MaxLoadBounds(other, w, m);
      LoadGrows(other, w, k, s);
    }
    LoadSumBounds(other[..k], w[..k], m, 0.0, MaxLoad(other, w, m));
    LoadsConserve(other[..k], w[..k], m);
  }
}
