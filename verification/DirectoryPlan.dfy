/** Which directories a deployment owns: from the mounts of its services to the owned paths of its manifest. */
module DirectoryPlan {
  import opened Wrappers
  import opened Ordering
  import opened StoragePreflight
  import opened AcceptanceHost

  datatype Mount = Mount(source: Path, target: Path, readOnly: bool)

  /** The core service has no catalog entry and so no minimum. */
  datatype Service = Service(uid: int, mounts: seq<Mount>, minimum: Option<nat>)

  // ---------------------------------------------------------------- the preferred mount

  /** A writable mount, of the given target if one is given. */
  predicate Suits(m: Mount, target: Option<Path>) {
    !m.readOnly && (target.None? || m.target == target.value)
  }

  predicate AnySuits(mounts: seq<Mount>, target: Option<Path>) {
    exists i :: 0 <= i < |mounts| && Suits(mounts[i], target)
  }

  /** The first mount that suits. */
  predicate IsFirst(mounts: seq<Mount>, target: Option<Path>, i: nat) {
    i < |mounts| && Suits(mounts[i], target) && forall j :: 0 <= j < i ==> !Suits(mounts[j], target)
  }

  function FirstWritable(mounts: seq<Mount>, target: Option<Path>): (r: Option<nat>)
    ensures r.Some? <==> AnySuits(mounts, target)
    ensures r.Some? ==> IsFirst(mounts, target, r.value)
  {
    if mounts == [] then None
    else
      var n := |mounts| - 1;
      var earlier := FirstWritable(mounts[..n], target);
      assert earlier.Some? ==> Suits(mounts[earlier.value], target);
      assert forall i :: 0 <= i < n ==> mounts[..n][i] == mounts[i];
      if earlier.Some? then earlier else if Suits(mounts[n], target) then Some(n) else None
  }

  /** The mount that carries the disk minimum of its service: the first of the best target that has a writable mount. */
  function Preferred(mounts: seq<Mount>): (r: Option<nat>)
    ensures r.Some? <==> AnySuits(mounts, None)
    ensures r.Some? ==>
              IsFirst(mounts, if AnySuits(mounts, Some("/data")) then Some("/data")
                              else if AnySuits(mounts, Some("/config")) then Some("/config")
                              else if AnySuits(mounts, Some("/app/config")) then Some("/app/config")
                              else None, r.value)
  {
    var data := FirstWritable(mounts, Some("/data"));
    var config := FirstWritable(mounts, Some("/config"));
    var app := FirstWritable(mounts, Some("/app/config"));
    SuitsAny(mounts, "/data");
    SuitsAny(mounts, "/config");
    SuitsAny(mounts, "/app/config");
    if data.Some? then data else if config.Some? then config else if app.Some? then app else FirstWritable(mounts, None)
  }

  lemma SuitsAny(mounts: seq<Mount>, target: Path)
    ensures AnySuits(mounts, Some(target)) ==> AnySuits(mounts, None)
  {
    if i :| 0 <= i < |mounts| && Suits(mounts[i], Some(target)) {
      assert Suits(mounts[i], None);
    }
  }

  // ---------------------------------------------------------------- what the mounts add up to

  /** One mount of one service, with what it adds to the requirement of its path. */
  datatype Use = Use(path: Path, uid: int, writes: bool, secret: bool, charge: nat)

  function UseOf(s: Service, j: nat): Use
    requires j < |s.mounts|
  {
    var m := s.mounts[j];
    Use(m.source, s.uid, !m.readOnly, m.target == "/secrets",
        if s.minimum.Some? && Preferred(s.mounts) == Some(j) then s.minimum.value else 0)
  }

  function UsesOf(s: Service, count: nat): (r: seq<Use>)
    requires count <= |s.mounts|
    ensures |r| == count && forall j :: 0 <= j < count ==> r[j] == UseOf(s, j)
  {
    seq(count, j requires 0 <= j < count => UseOf(s, j))
  }

  function Uses(services: seq<Service>): seq<Use> {
    if services == [] then []
    else
      var n := |services| - 1;
      Uses(services[..n]) + UsesOf(services[n], |services[n].mounts|)
  }

  predicate Writes(uses: seq<Use>, path: Path, uid: int) {
    exists k :: 0 <= k < |uses| && uses[k].path == path && uses[k].writes && uses[k].uid == uid
  }

  predicate Secret(uses: seq<Use>, path: Path) {
    exists k :: 0 <= k < |uses| && uses[k].path == path && uses[k].secret
  }

  predicate Mounted(uses: seq<Use>, path: Path) {
    exists k :: 0 <= k < |uses| && uses[k].path == path
  }

  function Charged(uses: seq<Use>, path: Path): nat {
    if uses == [] then 0
    else
      var n := |uses| - 1;
      Charged(uses[..n], path) + if uses[n].path == path then uses[n].charge else 0
  }

  /** Exactly one user id writes to the path. */
  ghost predicate SoleWriter(uses: seq<Use>, path: Path, uid: int) {
    Writes(uses, path, uid) && forall other :: Writes(uses, path, other) ==> other == uid
  }

  ghost predicate HasOwner(uses: seq<Use>, path: Path) {
    exists uid :: SoleWriter(uses, path, uid)
  }

  // ---------------------------------------------------------------- _directory_requirements

  datatype Tally = Tally(writers: set<int>, required: nat, private: bool)

  ghost predicate Tallied(uses: seq<Use>, path: Path, row: Tally) {
    && (forall uid :: uid in row.writers <==> Writes(uses, path, uid))
    && row.required == Charged(uses, path) && (row.private <==> Secret(uses, path))
  }

  ghost predicate Collected(uses: seq<Use>, rows: map<Path, Tally>) {
    forall p :: (p in rows <==> Mounted(uses, p)) && (p in rows ==> Tallied(uses, p, rows[p]))
  }

  function Collect(rows: map<Path, Tally>, use: Use): map<Path, Tally> {
    var row := if use.path in rows then rows[use.path] else Tally({}, 0, use.secret);
    rows[use.path := Tally(if use.writes then row.writers + {use.uid} else row.writers, row.required + use.charge,
                           row.private || use.secret)]
  }

  lemma {:induction false} NotCharged(uses: seq<Use>, path: Path)
    requires !Mounted(uses, path)
    ensures Charged(uses, path) == 0
  {
    if uses != [] {
      var n := |uses| - 1;
      assert uses[n].path != path;
      assert !Mounted(uses[..n], path);
      NotCharged(uses[..n], path);
    }
  }

  lemma SnocFacts(uses: seq<Use>, use: Use, path: Path)
    ensures Mounted(uses + [use], path) <==> Mounted(uses, path) || use.path == path
    ensures Secret(uses + [use], path) <==> Secret(uses, path) || (use.path == path && use.secret)
    ensures Charged(uses + [use], path) == Charged(uses, path) + if use.path == path then use.charge else 0
    ensures forall uid :: Writes(uses + [use], path, uid) <==>
                          Writes(uses, path, uid) || (use.path == path && use.writes && use.uid == uid)
  {
    var more := uses + [use];
    assert more[..|uses|] == uses && more[|uses|] == use;
    assert forall k :: 0 <= k < |uses| ==> more[k] == uses[k];
  }

  lemma CollectStep(uses: seq<Use>, use: Use, rows: map<Path, Tally>)
    requires Collected(uses, rows)
    ensures Collected(uses + [use], Collect(rows, use))
  {
    var next := Collect(rows, use);
    forall p ensures (p in next <==> Mounted(uses + [use], p)) && (p in next ==> Tallied(uses + [use], p, next[p])) {
      SnocFacts(uses, use, p);
      if p !in rows {
        NotCharged(uses, p);
        assert forall uid :: !Writes(uses, p, uid);
        assert !Secret(uses, p);
      }
    }
  }

  /** The loop over one service. */
  method CollectService(s: Service, rows: map<Path, Tally>, ghost uses: seq<Use>) returns (r: map<Path, Tally>)
    requires Collected(uses, rows)
    ensures Collected(uses + UsesOf(s, |s.mounts|), r)
  {
    r := rows;
    var preferred := Preferred(s.mounts);
    assert uses + UsesOf(s, 0) == uses;
    for j := 0 to |s.mounts|
      invariant Collected(uses + UsesOf(s, j), r)
    {
      var m := s.mounts[j];
      var charge := if s.minimum.Some? && preferred == Some(j) then s.minimum.value else 0;
      CollectStep(uses + UsesOf(s, j), UseOf(s, j), r);
      assert uses + UsesOf(s, j + 1) == uses + UsesOf(s, j) + [UseOf(s, j)];
      r := Collect(r, Use(m.source, s.uid, !m.readOnly, m.target == "/secrets", charge));
    }
  }

  ghost predicate DistinctStrings(xs: seq<Path>) {
    forall i, j :: 0 <= i < j < |xs| ==> xs[i] != xs[j]
  }

  /** The elements of a set, each once, in the order of `sorted`. */
  method SortedElements(paths: set<Path>) returns (r: seq<Path>)
    ensures DistinctStrings(r) && Sorted(r, CodeLess) && forall p :: p in r <==> p in paths
  {
    var rest, found: seq<Path> := paths, [];
    while rest != {}
      invariant rest <= paths && DistinctStrings(found)
      invariant forall p :: p in paths <==> p in rest || p in found
      invariant forall p :: p in found ==> p !in rest
      decreases rest
    {
      var p :| p in rest;
      rest, found := rest - {p}, found + [p];
    }
    CodeLessStrict();
    forall i, j | 0 <= i < j < |found| ensures CodeLess(found[i], found[j]) || CodeLess(found[j], found[i]) {
      CodeLessConnected(found[i], found[j]);
    }
    SortPermutes(found, CodeLess);
    SortSorts(found, CodeLess);
    r := Sort(found, CodeLess);
    SortedDistinct(r);
    forall p ensures p in r <==> p in found {
      assert p in r <==> p in multiset(r);
      assert p in found <==> p in multiset(found);
    }
  }

  lemma SortedDistinct(xs: seq<Path>)
    requires Sorted(xs, CodeLess)
    ensures DistinctStrings(xs)
  {
    CodeLessStrict();
  }

  /** What a requirement says of its path. */
  ghost predicate Derived(uses: seq<Use>, r: Requirement) {
    && SoleWriter(uses, r.path, r.owner) && r.required == Charged(uses, r.path) && (r.private <==> Secret(uses, r.path))
  }

  function PathsOf(rs: seq<Requirement>): (r: seq<Path>)
    ensures |r| == |rs| && forall i :: 0 <= i < |rs| ==> r[i] == rs[i].path
  {
    seq(|rs|, i requires 0 <= i < |rs| => rs[i].path)
  }

  lemma SizeOne(s: set<int>, x: int)
    requires x in s
    ensures |s| == 1 <==> s == {x}
  {
    assert s == s - {x} + {x};
    assert |s - {x}| == 0 <==> s - {x} == {};
  }

  lemma SingleWriter(uses: seq<Use>, path: Path, row: Tally, uid: int)
    requires Tallied(uses, path, row) && uid in row.writers
    ensures |row.writers| == 1 <==> SoleWriter(uses, path, uid)
  {
    SizeOne(row.writers, uid);
    if SoleWriter(uses, path, uid) {
      forall other ensures other in row.writers <==> other in {uid} {}
      assert row.writers == {uid};
    }
  }

  method CollectAll(services: seq<Service>) returns (rows: map<Path, Tally>)
    ensures Collected(Uses(services), rows)
  {
    rows := map[];
    for i := 0 to |services|
      invariant Collected(Uses(services[..i]), rows)
    {
      assert services[..i + 1][..i] == services[..i];
      rows := CollectService(services[i], rows, Uses(services[..i]));
    }
    assert services[..|services|] == services;
  }

  /** The requirement of one path, if it has a single writer. */
  method RequirementOf(path: Path, row: Tally, ghost uses: seq<Use>) returns (r: Option<Requirement>)
    requires Tallied(uses, path, row)
    ensures r.Some? <==> HasOwner(uses, path)
    ensures r.Some? ==> r.value.path == path && Derived(uses, r.value)
  {
    if |row.writers| != 1 {
      NoSoleWriter(uses, path, row);
      return None;
    }
    Inhabited(row.writers);
    var uid :| uid in row.writers;
    SingleWriter(uses, path, row, uid);
    return Some(Requirement(path, uid, row.required, row.private));
  }

  /** Requirements for exactly the mounted paths, in order. */
  ghost predicate Requirements(uses: seq<Use>, rs: seq<Requirement>) {
    && Sorted(PathsOf(rs), CodeLess) && DistinctStrings(PathsOf(rs))
    && (forall p :: p in PathsOf(rs) <==> Mounted(uses, p))
    && (forall i :: 0 <= i < |rs| ==> Derived(uses, rs[i]))
  }

  ghost predicate AllOwned(uses: seq<Use>) {
    forall p :: Mounted(uses, p) ==> HasOwner(uses, p)
  }

  /** `_directory_requirements`: one requirement per mounted path, or none at all when a path lacks a single writer. */
  method DirectoryRequirements(services: seq<Service>) returns (r: Option<seq<Requirement>>)
    ensures r.Some? <==> AllOwned(Uses(services))
    ensures r.Some? ==> Requirements(Uses(services), r.value)
  {
    var rows := CollectAll(services);
    ghost var uses := Uses(services);
    var paths := SortedElements(rows.Keys);
    var result: seq<Requirement> := [];
    for i := 0 to |paths|
      invariant |result| == i
      invariant forall k :: 0 <= k < i ==> result[k].path == paths[k] && Derived(uses, result[k])
    {
      assert paths[i] in rows;
      var next := RequirementOf(paths[i], rows[paths[i]], uses);
      if next.None? {
        return None;
      }
      result := result + [next.value];
    }
    assert PathsOf(result) == paths;
    OwnedBy(uses, result);
    return Some(result);
  }

  lemma OwnedBy(uses: seq<Use>, rs: seq<Requirement>)
    requires forall p :: Mounted(uses, p) ==> p in PathsOf(rs)
    requires forall i :: 0 <= i < |rs| ==> Derived(uses, rs[i])
    ensures AllOwned(uses)
  {
    forall p | Mounted(uses, p) ensures HasOwner(uses, p) {
      var paths := PathsOf(rs);
      var k :| 0 <= k < |paths| && paths[k] == p;
      assert SoleWriter(uses, p, rs[k].owner);
    }
  }

  lemma NoSoleWriter(uses: seq<Use>, path: Path, row: Tally)
    requires Tallied(uses, path, row) && |row.writers| != 1
    ensures !HasOwner(uses, path)
  {
    forall uid ensures !SoleWriter(uses, path, uid) {
      if uid in row.writers {
        SingleWriter(uses, path, row, uid);
      }
    }
  }

  // ---------------------------------------------------------------- every minimum is counted once

  function Total(rs: seq<Requirement>): nat {
    if rs == [] then 0 else rs[0].required + Total(rs[1..])
  }

  function Charges(uses: seq<Use>): nat {
    if uses == [] then 0 else Charges(uses[..|uses| - 1]) + uses[|uses| - 1].charge
  }

  function ChargedOver(uses: seq<Use>, paths: seq<Path>): nat {
    if paths == [] then 0 else Charged(uses, paths[0]) + ChargedOver(uses, paths[1..])
  }

  /** The catalog minimum of every component that has somewhere to write. */
  function Minima(services: seq<Service>): nat {
    if services == [] then 0
    else
      var s := services[|services| - 1];
      Minima(services[..|services| - 1])
      + if s.minimum.Some? && Preferred(s.mounts).Some? then s.minimum.value else 0
  }

  lemma {:induction false} OneUse(uses: seq<Use>, paths: seq<Path>)
    requires uses != [] && DistinctStrings(paths)
    ensures ChargedOver(uses, paths) == ChargedOver(uses[..|uses| - 1], paths)
                                        + if uses[|uses| - 1].path in paths then uses[|uses| - 1].charge else 0
  {
    if paths != [] {
      OneUse(uses, paths[1..]);
      assert paths == [paths[0]] + paths[1..];
      assert paths[0] !in paths[1..];
    }
  }

  lemma {:induction false} NoUses(paths: seq<Path>)
    ensures ChargedOver([], paths) == 0
  {
    if paths != [] {
      NoUses(paths[1..]);
    }
  }

  /** Adding up path by path gives the sum of all charges. */
  lemma {:induction false} ChargesByPath(uses: seq<Use>, paths: seq<Path>)
    requires DistinctStrings(paths) && forall k :: 0 <= k < |uses| ==> uses[k].path in paths
    ensures ChargedOver(uses, paths) == Charges(uses)
  {
    if uses == [] {
      NoUses(paths);
    } else {
      OneUse(uses, paths);
      ChargesByPath(uses[..|uses| - 1], paths);
    }
  }

  lemma {:induction false} ChargesConcat(a: seq<Use>, b: seq<Use>)
    ensures Charges(a + b) == Charges(a) + Charges(b)
  {
    if b == [] {
      assert a + b == a;
    } else {
      var n := |b| - 1;
      ChargesConcat(a, b[..n]);
      assert (a + b)[..|a| + n] == a + b[..n];
    }
  }

  lemma {:induction false} ServiceCharges(s: Service, count: nat)
    requires count <= |s.mounts|
    ensures Charges(UsesOf(s, count)) ==
            if s.minimum.Some? && Preferred(s.mounts).Some? && Preferred(s.mounts).value < count then s.minimum.value else 0
  {
    if count > 0 {
      ServiceCharges(s, count - 1);
      assert UsesOf(s, count)[..count - 1] == UsesOf(s, count - 1);
    }
  }

  lemma {:induction false} AllCharges(services: seq<Service>)
    ensures Charges(Uses(services)) == Minima(services)
  {
    if services != [] {
      var n := |services| - 1;
      AllCharges(services[..n]);
      ServiceCharges(services[n], |services[n].mounts|);
      ChargesConcat(Uses(services[..n]), UsesOf(services[n], |services[n].mounts|));
    }
  }

  lemma {:induction false} TotalIsCharged(uses: seq<Use>, rs: seq<Requirement>)
    requires forall i :: 0 <= i < |rs| ==> rs[i].required == Charged(uses, rs[i].path)
    ensures Total(rs) == ChargedOver(uses, PathsOf(rs))
  {
    if rs != [] {
      TotalIsCharged(uses, rs[1..]);
      assert PathsOf(rs)[1..] == PathsOf(rs[1..]);
    }
  }

  /** The requirements together demand the minimum of every component with a writable mount, each exactly once. */
  lemma MinimumCountedOnce(services: seq<Service>, rs: seq<Requirement>)
    requires Requirements(Uses(services), rs)
    ensures Total(rs) == Minima(services)
  {
    var uses := Uses(services);
    TotalIsCharged(uses, rs);
    forall k | 0 <= k < |uses| ensures uses[k].path in PathsOf(rs) {
      assert Mounted(uses, uses[k].path);
    }
    ChargesByPath(uses, PathsOf(rs));
    AllCharges(services);
  }
}
