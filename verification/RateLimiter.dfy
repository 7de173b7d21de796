/**
 The table behind `AuthService.rate_limit`: rows are purged after an hour, counted per window and capped at
 10000. A key stands for the digest of `rate:category:identifier`; the window length is fixed for the service.
 */
module RateLimiter {
  import opened Wrappers

  const MAX_ROWS := 10000
  const PURGE_SECONDS := 3600.0

  datatype Row = Row(window: int, count: nat, touched: real)

  /** One `(category, identifier, limit)` of a call. */
  datatype Limit = Limit(key: string, limit: int)

  type Rows = map<string, Row>

  function Window(now: real, seconds: nat): int
    requires seconds > 0
  {
    (now / seconds as real).Floor
  }

  function Purge(rows: Rows, now: real): Rows {
    map k | k in rows && rows[k].touched >= now - PURGE_SECONDS :: rows[k]
  }

  function Bump(rows: Rows, key: string, window: int, now: real): Rows {
    rows[key := Row(window, if key in rows && rows[key].window == window then rows[key].count + 1 else 1, now)]
  }

  /** The table after all the keys of a call were counted. */
  function BumpAll(rows: Rows, limits: seq<Limit>, window: int, now: real): (after: Rows)
    ensures forall i :: 0 <= i < |limits| ==> limits[i].key in after
    ensures forall k :: k in rows ==> k in after
  {
    if limits == [] then rows
    else
      var n := |limits| - 1;
      Bump(BumpAll(rows, limits[..n], window, now), limits[n].key, window, now)
  }

  /** Some key exceeded its limit at the moment it was counted. */
  predicate Denied(rows: Rows, limits: seq<Limit>, window: int, now: real) {
    exists i :: 0 <= i < |limits| && Exceeds(rows, limits, window, now, i)
  }

  /** The cap keeps the rows touched last; among equally old rows any may go. */
  ghost predicate Evicted(before: Rows, after: Rows) {
    && (forall k :: k in after ==> k in before && after[k] == before[k])
    && |after| == (if |before| <= 10000 then |before| else 10000)
    && (forall k, j :: k in before && k !in after && j in after ==> before[k].touched <= after[j].touched)
  }

  // ---------------------------------------------------------------- the service object

  class Limiter {
    const seconds: nat
    var rows: Rows

    constructor (seconds: nat)
      ensures this.seconds == seconds && rows == map[]
    {
      this.seconds := seconds;
      rows := map[];
    }

    /** `rate_limit`: true when the call must be refused. The counts are kept either way. */
    method RateLimit(limits: seq<Limit>, now: real) returns (denied: bool)
      requires seconds > 0
      modifies this`rows
      ensures var purged := Purge(old(rows), now);
              && denied == Denied(purged, limits, Window(now, seconds), now)
              && Evicted(BumpAll(purged, limits, Window(now, seconds), now), rows)
    {
      rows := map k | k in rows && rows[k].touched >= now - PURGE_SECONDS :: rows[k];
      denied := CountAll(limits, Window(now, seconds), now);
      EvictOldest();
    }

    method CountAll(limits: seq<Limit>, window: int, now: real) returns (denied: bool)
      modifies this`rows
      ensures rows == BumpAll(old(rows), limits, window, now)
      ensures denied == Denied(old(rows), limits, window, now)
    {
      denied := false;
      for i := 0 to |limits|
        invariant rows == BumpAll(old(rows), limits[..i], window, now)
        invariant denied == Denied(old(rows), limits[..i], window, now)
      {
        var key := limits[i].key;
        var count := if key in rows && rows[key].window == window then rows[key].count + 1 else 1;
        DeniedSnoc(old(rows), limits, i, window, now);
        assert limits[..i + 1][..i] == limits[..i];
        rows := rows[key := Row(window, count, now)];
        denied := denied || count > limits[i].limit;
      }
      assert limits[..|limits|] == limits;
    }

    method EvictOldest()
      modifies this`rows
      ensures Evicted(old(rows), rows)
    {
      ghost var before := rows;
      while |rows| > MAX_ROWS
        invariant forall k :: k in rows ==> k in before && rows[k] == before[k]
        invariant |rows| == |before| || MAX_ROWS <= |rows| < |before|
        invariant forall k, j :: k in before && k !in rows && j in rows ==> before[k].touched <= rows[j].touched
        decreases |rows|
      {
        OldestExists(rows, rows.Keys);
        var k :| k in rows && forall j :: j in rows ==> rows[k].touched <= rows[j].touched;
        ghost var keys := rows.Keys;
        rows := rows - {k};
        assert rows.Keys == keys - {k};
      }
      if |rows| == |before| {
        assert rows.Keys <= before.Keys;
        SameSize(rows.Keys, before.Keys);
      }
    }
  }

  lemma SameSize(x: set<string>, y: set<string>)
    requires x <= y && |x| == |y|
    ensures x == y
  {
    assert y == x + (y - x);
  }

  lemma {:induction false} OldestExists(rows: Rows, among: set<string>)
    requires among <= rows.Keys && among != {}
    ensures exists k :: k in among && forall j :: j in among ==> rows[k].touched <= rows[j].touched
  {
    var k :| k in among;
    var rest := among - {k};
    if rest == {} {
      assert among == {k};
    } else {
      OldestExists(rows, rest);
      var m :| m in rest && forall j :: j in rest ==> rows[m].touched <= rows[j].touched;
      var least := if rows[k].touched <= rows[m].touched then k else m;
      assert forall j :: j in among ==> j == k || j in rest;
      assert least in among && forall j :: j in among ==> rows[least].touched <= rows[j].touched;
    }
  }

  /** Key `i` exceeded its limit at the moment it was counted. */
  predicate Exceeds(rows: Rows, limits: seq<Limit>, window: int, now: real, i: nat)
    requires i < |limits|
  {
    BumpAll(rows, limits[..i + 1], window, now)[limits[i].key].count > limits[i].limit
  }

  lemma ExceedsPrefix(rows: Rows, limits: seq<Limit>, window: int, now: real, i: nat, n: nat)
    requires i < n <= |limits|
    ensures Exceeds(rows, limits[..n], window, now, i) == Exceeds(rows, limits, window, now, i)
  {
    assert limits[..n][..i + 1] == limits[..i + 1];
  }

  lemma DeniedSnoc(rows: Rows, limits: seq<Limit>, n: nat, window: int, now: real)
    requires n < |limits|
    ensures Denied(rows, limits[..n + 1], window, now) <==>
            Denied(rows, limits[..n], window, now) || Exceeds(rows, limits, window, now, n)
  {
    var p, q := limits[..n], limits[..n + 1];
    ExceedsPrefix(rows, limits, window, now, n, n + 1);
    if Denied(rows, q, window, now) {
      var i :| 0 <= i < |q| && Exceeds(rows, q, window, now, i);
      if i < n {
        ExceedsPrefix(rows, limits, window, now, i, n + 1);
        ExceedsPrefix(rows, limits, window, now, i, n);
        assert Exceeds(rows, p, window, now, i);
      }
    }
    if Denied(rows, p, window, now) {
      var i :| 0 <= i < |p| && Exceeds(rows, p, window, now, i);
      ExceedsPrefix(rows, limits, window, now, i, n + 1);
      ExceedsPrefix(rows, limits, window, now, i, n);
      assert Exceeds(rows, q, window, now, i);
    }
  }

  // ---------------------------------------------------------------- all runs

  /** One call: what it named, when, what table it left and whether it was refused. */
  datatype Call = Call(limits: seq<Limit>, now: real, rows: Rows, denied: bool)

  function RowsAfter(log: seq<Call>): Rows {
    if log == [] then map[] else log[|log| - 1].rows
  }

  ghost predicate CallOk(rows: Rows, c: Call, seconds: nat)
    requires seconds > 0
  {
    var purged := Purge(rows, c.now);
    && c.denied == Denied(purged, c.limits, Window(c.now, seconds), c.now)
    && Evicted(BumpAll(purged, c.limits, Window(c.now, seconds), c.now), c.rows)
  }

  /** Any sequence of calls under a clock that does not go back. */
  ghost predicate IsRun(log: seq<Call>, seconds: nat)
    requires seconds > 0
  {
    log == [] ||
    var n := |log| - 1;
    && IsRun(log[..n], seconds)
    && CallOk(RowsAfter(log[..n]), log[n], seconds)
    && (n > 0 ==> log[n - 1].now <= log[n].now)
  }

  function Occurrences(limits: seq<Limit>, key: string): nat {
    if limits == [] then 0
    else
      var n := |limits| - 1;
      Occurrences(limits[..n], key) + if limits[n].key == key then 1 else 0
  }

  /** How often calls named the key in the window, counted from the calls themselves. */
  function Namings(log: seq<Call>, key: string, window: int, seconds: nat): nat
    requires seconds > 0
  {
    if log == [] then 0
    else
      var n := |log| - 1;
      Namings(log[..n], key, window, seconds)
      + if Window(log[n].now, seconds) == window then Occurrences(log[n].limits, key) else 0
  }

  /** How many calls naming the key in the window were let through. */
  function Admitted(log: seq<Call>, key: string, window: int, seconds: nat): nat
    requires seconds > 0
  {
    if log == [] then 0
    else
      var n := |log| - 1;
      Admitted(log[..n], key, window, seconds)
      + if Window(log[n].now, seconds) == window && Occurrences(log[n].limits, key) > 0 && !log[n].denied then 1 else 0
  }

  /** The cap never removed the key's row during the window. */
  ghost predicate Kept(log: seq<Call>, key: string, window: int, seconds: nat)
    requires seconds > 0
  {
    log == [] ||
    var n := |log| - 1;
    && Kept(log[..n], key, window, seconds)
    && (Window(log[n].now, seconds) == window &&
        key in BumpAll(Purge(RowsAfter(log[..n]), log[n].now), log[n].limits, window, log[n].now)
        ==> key in log[n].rows)
  }

  function Stored(rows: Rows, key: string, window: int): nat {
    if key in rows && rows[key].window == window then rows[key].count else 0
  }

  ghost predicate Dated(rows: Rows, now: real, seconds: nat)
    requires seconds > 0
  {
    forall k :: k in rows ==> rows[k].window == Window(rows[k].touched, seconds) && rows[k].touched <= now
  }

  lemma WindowBounds(now: real, seconds: nat)
    requires seconds > 0
    ensures var start := Window(now, seconds) as real * seconds as real; start <= now < start + seconds as real
  {
    var s := seconds as real;
    var q := now / s;
    assert q * s == now;
    FloorScale(now, q, q.Floor as real, s);
  }

  lemma FloorScale(now: real, q: real, w: real, s: real)
    requires w <= q < w + 1.0 && s > 0.0 && q * s == now
    ensures w * s <= now < w * s + s
  {
    var d := q - w;
    Split(q, w, d, s);
    Fraction(d, s);
    Between(now, w * s, d * s, s);
  }

  lemma Split(q: real, w: real, d: real, s: real)
    requires q == w + d
    ensures q * s == w * s + d * s
  {}

  lemma Fraction(d: real, s: real)
    requires 0.0 <= d < 1.0 && s > 0.0
    ensures 0.0 <= d * s < s
  {
    var e := 1.0 - d;
    assert e * s > 0.0;
    Split(1.0, d, e, s);
  }

  lemma Between(now: real, start: real, offset: real, length: real)
    requires now == start + offset && 0.0 <= offset < length
    ensures start <= now < start + length
  {}

  lemma WindowMonotone(a: real, b: real, seconds: nat)
    requires seconds > 0 && a <= b
    ensures Window(a, seconds) <= Window(b, seconds)
  {
    var s := seconds as real;
    assert a / s <= b / s by {
      assert (b - a) / s >= 0.0;
    }
  }

  /** A row of the current window was touched less than a window ago, so the hourly purge leaves it. */
  lemma PurgeSparesWindow(rows: Rows, key: string, now: real, seconds: nat)
    requires 0 < seconds <= 3600 && Dated(rows, now, seconds)
    ensures Stored(Purge(rows, now), key, Window(now, seconds)) == Stored(rows, key, Window(now, seconds))
  {
    if key in rows && rows[key].window == Window(now, seconds) {
      WindowBounds(now, seconds);
      WindowBounds(rows[key].touched, seconds);
    }
  }

  lemma {:induction false} BumpCounts(rows: Rows, limits: seq<Limit>, window: int, now: real, key: string)
    ensures Stored(BumpAll(rows, limits, window, now), key, window) == Stored(rows, key, window) + Occurrences(limits, key)
  {
    if limits != [] {
      BumpCounts(rows, limits[..|limits| - 1], window, now, key);
    }
  }

  lemma {:induction false} BumpDated(rows: Rows, limits: seq<Limit>, now: real, seconds: nat)
    requires seconds > 0 && Dated(rows, now, seconds)
    ensures Dated(BumpAll(rows, limits, Window(now, seconds), now), now, seconds)
  {
    if limits != [] {
      BumpDated(rows, limits[..|limits| - 1], now, seconds);
    }
  }

  lemma {:induction false} RunDated(log: seq<Call>, seconds: nat, now: real)
    requires seconds > 0 && IsRun(log, seconds)
    requires log != [] ==> log[|log| - 1].now <= now
    ensures Dated(RowsAfter(log), now, seconds)
  {
    if log != [] {
      var n := |log| - 1;
      var c := log[n];
      RunDated(log[..n], seconds, c.now);
      BumpDated(Purge(RowsAfter(log[..n]), c.now), c.limits, c.now, seconds);
    }
  }

  /** Nothing is stored or named for a window that lies after the last call. */
  lemma {:induction false} FutureIsEmpty(log: seq<Call>, seconds: nat, key: string, window: int)
    requires seconds > 0 && IsRun(log, seconds)
    requires log != [] ==> Window(log[|log| - 1].now, seconds) < window
    ensures Namings(log, key, window, seconds) == 0 && Stored(RowsAfter(log), key, window) == 0
  {
    if log != [] {
      var n := |log| - 1;
      if n > 0 {
        WindowMonotone(log[n - 1].now, log[n].now, seconds);
      }
      FutureIsEmpty(log[..n], seconds, key, window);
      RunDated(log, seconds, log[n].now);
      if key in log[n].rows {
        WindowMonotone(log[n].rows[key].touched, log[n].now, seconds);
      }
    }
  }

  /**
   While the cap has not removed it, a key's stored count is exactly how often calls named it in the current window:
   the hourly purge and the other keys never disturb it.
   */
  lemma {:induction false} StoredCountIsExact(log: seq<Call>, seconds: nat, key: string, window: int)
    requires 0 < seconds <= 3600 && IsRun(log, seconds) && Kept(log, key, window, seconds)
    requires log != [] ==> Window(log[|log| - 1].now, seconds) <= window
    ensures Stored(RowsAfter(log), key, window) == Namings(log, key, window, seconds)
  {
    if log != [] {
      var n := |log| - 1;
      var before, c := RowsAfter(log[..n]), log[n];
      if Window(c.now, seconds) < window {
        FutureIsEmpty(log, seconds, key, window);
      } else {
        if n > 0 {
          WindowMonotone(log[n - 1].now, c.now, seconds);
        }
        StoredCountIsExact(log[..n], seconds, key, window);
        RunDated(log[..n], seconds, c.now);
        PurgeSparesWindow(before, key, c.now, seconds);
        BumpCounts(Purge(before, c.now), c.limits, window, c.now, key);
      }
    }
  }

  lemma {:induction false} LastNaming(limits: seq<Limit>, key: string) returns (i: nat)
    requires Occurrences(limits, key) > 0
    ensures i < |limits| && limits[i].key == key && Occurrences(limits[..i + 1], key) == Occurrences(limits, key)
  {
    var n := |limits| - 1;
    if limits[n].key == key {
      i := n;
      assert limits[..n + 1] == limits;
    } else {
      i := LastNaming(limits[..n], key);
      assert limits[..n][..i + 1] == limits[..i + 1];
    }
  }

  /** A call that is let through leaves each key it names at or below its limit. */
  lemma AdmittedWithinLimit(rows: Rows, limits: seq<Limit>, window: int, now: real, key: string, limit: int)
    requires !Denied(rows, limits, window, now) && Occurrences(limits, key) > 0
    requires forall i :: 0 <= i < |limits| && limits[i].key == key ==> limits[i].limit <= limit
    ensures Stored(rows, key, window) + Occurrences(limits, key) <= limit
  {
    var i := LastNaming(limits, key);
    BumpCounts(rows, limits[..i + 1], window, now, key);
    assert !Exceeds(rows, limits, window, now, i);
    assert limits[..i + 1][i] == limits[i];
  }

  lemma ExceedsByCount(rows: Rows, limits: seq<Limit>, window: int, now: real, i: nat)
    requires i < |limits|
    ensures Exceeds(rows, limits, window, now, i) <==>
            Stored(rows, limits[i].key, window) + Occurrences(limits[..i + 1], limits[i].key) > limits[i].limit
  {
    BumpCounts(rows, limits[..i + 1], window, now, limits[i].key);
    assert limits[..i + 1][i] == limits[i];
  }

  /** Counting the calls themselves, the `i`-th key of the last call is over its limit. */
  ghost predicate OverLimit(log: seq<Call>, seconds: nat, i: nat)
    requires seconds > 0 && log != [] && i < |log[|log| - 1].limits|
  {
    var n := |log| - 1;
    var c := log[n];
    Namings(log[..n], c.limits[i].key, Window(c.now, seconds), seconds) + Occurrences(c.limits[..i + 1], c.limits[i].key)
    > c.limits[i].limit
  }

  lemma ExceedsIsOverLimit(log: seq<Call>, seconds: nat, i: nat)
    requires 0 < seconds <= 3600 && IsRun(log, seconds) && log != [] && i < |log[|log| - 1].limits|
    requires Kept(log[..|log| - 1], log[|log| - 1].limits[i].key, Window(log[|log| - 1].now, seconds), seconds)
    ensures var n := |log| - 1;
            var c := log[n];
            Exceeds(Purge(RowsAfter(log[..n]), c.now), c.limits, Window(c.now, seconds), c.now, i) <==> OverLimit(log, seconds, i)
  {
    var n := |log| - 1;
    var c, before := log[n], RowsAfter(log[..n]);
    var key, window := c.limits[i].key, Window(c.now, seconds);
    if n > 0 {
      WindowMonotone(log[n - 1].now, c.now, seconds);
    }
    StoredCountIsExact(log[..n], seconds, key, window);
    RunDated(log[..n], seconds, c.now);
    PurgeSparesWindow(before, key, c.now, seconds);
    ExceedsByCount(Purge(before, c.now), c.limits, window, c.now, i);
  }

  /** The cap removed none of the rows the limits name. */
  ghost predicate AllKept(log: seq<Call>, limits: seq<Limit>, window: int, seconds: nat)
    requires seconds > 0
  {
    forall i :: 0 <= i < |limits| ==> Kept(log, limits[i].key, window, seconds)
  }

  /** A call is refused exactly when, counting the calls of its window, some key it names is over its limit. */
  lemma DeniedExactly(log: seq<Call>, seconds: nat)
    requires 0 < seconds <= 3600 && IsRun(log, seconds) && log != []
    requires AllKept(log[..|log| - 1], log[|log| - 1].limits, Window(log[|log| - 1].now, seconds), seconds)
    ensures log[|log| - 1].denied <==> exists i :: 0 <= i < |log[|log| - 1].limits| && OverLimit(log, seconds, i)
  {
    var n := |log| - 1;
    var c := log[n];
    var purged, window := Purge(RowsAfter(log[..n]), c.now), Window(c.now, seconds);
    forall i | 0 <= i < |c.limits|
      ensures Exceeds(purged, c.limits, window, c.now, i) <==> OverLimit(log, seconds, i)
    {
      ExceedsIsOverLimit(log, seconds, i);
    }
  }

  /** Every call that names the key allows it at most `limit`. */
  ghost predicate LimitedTo(log: seq<Call>, key: string, limit: int) {
    forall n, i :: 0 <= n < |log| && 0 <= i < |log[n].limits| && log[n].limits[i].key == key ==>
      log[n].limits[i].limit <= limit
  }

  lemma {:induction false} AdmittedAtMostNamed(log: seq<Call>, seconds: nat, key: string, window: int)
    requires seconds > 0
    ensures Admitted(log, key, window, seconds) <= Namings(log, key, window, seconds)
  {
    if log != [] {
      AdmittedAtMostNamed(log[..|log| - 1], seconds, key, window);
    }
  }

  /** At most `limit` calls naming a key are let through in one window, as long as the cap does not remove its row. */
  lemma {:induction false} AtMostLimitAdmitted(log: seq<Call>, seconds: nat, key: string, window: int, limit: nat)
    requires 0 < seconds <= 3600 && IsRun(log, seconds) && Kept(log, key, window, seconds) && LimitedTo(log, key, limit)
    ensures Admitted(log, key, window, seconds) <= limit
  {
    if log != [] {
      var n := |log| - 1;
      var c := log[n];
      AtMostLimitAdmitted(log[..n], seconds, key, window, limit);
      if Window(c.now, seconds) == window && Occurrences(c.limits, key) > 0 && !c.denied {
        if n > 0 {
          WindowMonotone(log[n - 1].now, c.now, seconds);
        }
        var before := RowsAfter(log[..n]);
        StoredCountIsExact(log[..n], seconds, key, window);
        RunDated(log[..n], seconds, c.now);
        PurgeSparesWindow(before, key, c.now, seconds);
        AdmittedWithinLimit(Purge(before, c.now), c.limits, window, c.now, key, limit);
        AdmittedAtMostNamed(log[..n], seconds, key, window);
      }
    }
  }

  /** The table never holds more than 10000 rows after a call. */
  lemma TableCapped(log: seq<Call>, seconds: nat)
    requires seconds > 0 && IsRun(log, seconds)
    ensures |RowsAfter(log)| <= 10000
  {}

  // ---------------------------------------------------------------- when the cap spares every key

  function KeysOf(limits: seq<Limit>): (r: set<string>)
    ensures forall k :: k in r <==> exists i :: 0 <= i < |limits| && limits[i].key == k
  {
    set i | 0 <= i < |limits| :: limits[i].key
  }

  /** The keys named by calls since then. */
  function KeysSince(log: seq<Call>, since: real): set<string> {
    if log == [] then {}
    else
      var n := |log| - 1;
      KeysSince(log[..n], since) + if log[n].now >= since then KeysOf(log[n].limits) else {}
  }

  /** At no call were more than 10000 different keys named within the hour up to it. */
  ghost predicate FewKeys(log: seq<Call>) {
    log == [] ||
    var n := |log| - 1;
    FewKeys(log[..n]) && |KeysSince(log, log[n].now - 3600.0)| <= 10000
  }

  lemma {:induction false} KeysSinceMonotone(log: seq<Call>, early: real, late: real)
    requires early <= late
    ensures KeysSince(log, late) <= KeysSince(log, early)
  {
    if log != [] {
      KeysSinceMonotone(log[..|log| - 1], early, late);
    }
  }

  lemma {:induction false} BumpedRow(rows: Rows, limits: seq<Limit>, window: int, now: real, key: string)
    requires key in BumpAll(rows, limits, window, now)
    ensures var after := BumpAll(rows, limits, window, now);
            if key in KeysOf(limits) then after[key].touched == now else key in rows && after[key] == rows[key]
  {
    if limits != [] {
      var n := |limits| - 1;
      if limits[n].key == key {
        assert limits[n].key in KeysOf(limits);
      } else {
        BumpedRow(rows, limits[..n], window, now, key);
        assert key in KeysOf(limits) <==> key in KeysOf(limits[..n]);
      }
    }
  }

  /** The call's time, for a key it names; otherwise the time the row was touched before. */
  function TouchedBy(rows: Rows, c: Call, key: string): Option<real> {
    if key in KeysOf(c.limits) then Some(c.now)
    else if key in rows && rows[key].touched >= c.now - 3600.0 then Some(rows[key].touched)
    else None
  }

  /**
   What one call leaves: a named key is counted in the current window, another row stays as it was for an hour after it was
   touched, and a row goes earlier only from a full table in which nothing is older.
   */
  lemma RowsAfterCall(rows: Rows, c: Call, seconds: nat, key: string)
    requires seconds > 0 && CallOk(rows, c, seconds)
    ensures key in c.rows ==> TouchedBy(rows, c, key) == Some(c.rows[key].touched)
    ensures key in c.rows && key !in KeysOf(c.limits) ==> key in rows && c.rows[key] == rows[key]
    ensures key in c.rows && key in KeysOf(c.limits) ==> c.rows[key].window == Window(c.now, seconds)
    ensures TouchedBy(rows, c, key).Some? && key !in c.rows ==>
              |c.rows| == 10000 && forall j :: j in c.rows ==> TouchedBy(rows, c, key).value <= c.rows[j].touched
  {
    var purged, window := Purge(rows, c.now), Window(c.now, seconds);
    var counted := BumpAll(purged, c.limits, window, c.now);
    if key in counted {
      BumpedRow(purged, c.limits, window, c.now, key);
    }
    if key in KeysOf(c.limits) {
      BumpedWindow(purged, c.limits, window, c.now, key);
    }
    if key in counted && key !in c.rows && |counted| <= 10000 {
      SameSize(c.rows.Keys, counted.Keys);
    }
  }

  lemma {:induction false} BumpedWindow(rows: Rows, limits: seq<Limit>, window: int, now: real, key: string)
    requires key in KeysOf(limits)
    ensures BumpAll(rows, limits, window, now)[key].window == window
  {
    var n := |limits| - 1;
    if limits[n].key != key {
      assert key in KeysOf(limits[..n]);
      BumpedWindow(rows, limits[..n], window, now, key);
    }
  }

  /** Every row was touched by a call that named its key. */
  lemma {:induction false} RowsWereNamed(log: seq<Call>, seconds: nat, key: string)
    requires seconds > 0 && IsRun(log, seconds) && key in RowsAfter(log)
    ensures key in KeysSince(log, RowsAfter(log)[key].touched)
  {
    var n := |log| - 1;
    var c, before := log[n], RowsAfter(log[..n]);
    BumpedRow(Purge(before, c.now), c.limits, Window(c.now, seconds), c.now, key);
    if key !in KeysOf(c.limits) {
      RowsWereNamed(log[..n], seconds, key);
    }
  }

  /** Before the cap is applied, the table holds only keys named within the hour. */
  lemma BumpedAreRecent(log: seq<Call>, seconds: nat, key: string)
    requires seconds > 0 && IsRun(log, seconds) && log != []
    requires var c := log[|log| - 1];
             key in BumpAll(Purge(RowsAfter(log[..|log| - 1]), c.now), c.limits, Window(c.now, seconds), c.now)
    ensures key in KeysSince(log, log[|log| - 1].now - PURGE_SECONDS)
  {
    var n := |log| - 1;
    var c, before := log[n], RowsAfter(log[..n]);
    BumpedRow(Purge(before, c.now), c.limits, Window(c.now, seconds), c.now, key);
    if key !in KeysOf(c.limits) {
      RowsWereNamed(log[..n], seconds, key);
      KeysSinceMonotone(log[..n], c.now - PURGE_SECONDS, before[key].touched);
    }
  }

  /** The table after the last call was counted and before the cap was applied. */
  function Counted(log: seq<Call>, seconds: nat): Rows
    requires seconds > 0 && log != []
  {
    var c := log[|log| - 1];
    BumpAll(Purge(RowsAfter(log[..|log| - 1]), c.now), c.limits, Window(c.now, seconds), c.now)
  }

  lemma CountedAreRecent(log: seq<Call>, seconds: nat)
    requires seconds > 0 && IsRun(log, seconds) && log != []
    ensures Counted(log, seconds).Keys <= KeysSince(log, log[|log| - 1].now - PURGE_SECONDS)
  {
    forall k | k in Counted(log, seconds) ensures k in KeysSince(log, log[|log| - 1].now - PURGE_SECONDS) {
      BumpedAreRecent(log, seconds, k);
    }
  }

  /** Then the cap of the last call removed nothing. */
  lemma CapIdle(log: seq<Call>, seconds: nat)
    requires seconds > 0 && IsRun(log, seconds) && log != []
    requires |KeysSince(log, log[|log| - 1].now - PURGE_SECONDS)| <= MAX_ROWS
    ensures log[|log| - 1].rows == Counted(log, seconds)
  {
    CountedAreRecent(log, seconds);
    NothingEvicted(Counted(log, seconds), log[|log| - 1].rows, KeysSince(log, log[|log| - 1].now - PURGE_SECONDS));
  }

  /** While at most 10000 different keys are named within an hour, the cap never removes a row, so the results above apply. */
  lemma {:induction false} KeptWhileFewKeys(log: seq<Call>, seconds: nat, key: string, window: int)
    requires seconds > 0 && IsRun(log, seconds) && FewKeys(log)
    ensures Kept(log, key, window, seconds)
  {
    if log != [] {
      KeptWhileFewKeys(log[..|log| - 1], seconds, key, window);
      CapIdle(log, seconds);
    }
  }

  lemma NothingEvicted(before: Rows, after: Rows, recent: set<string>)
    requires Evicted(before, after) && before.Keys <= recent && |recent| <= MAX_ROWS
    ensures after == before
  {
    assert recent == before.Keys + (recent - before.Keys);
    assert after.Keys <= before.Keys;
    SameSize(after.Keys, before.Keys);
  }
}
