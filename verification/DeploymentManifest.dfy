/** The owned paths of a deployment bundle: relocated requirements, the directories between them and the data root, and
    the recovery targets beside it. */
module DeploymentManifest {
  import opened Wrappers
  import opened Ordering
  import opened StoragePreflight
  import opened AcceptanceHost
  import opened DirectoryPlan

  const CANONICAL_ROOT := "/var/lib/larenor-server"
  const CORE_UID := 10001
  const LEAST_BUDGET := 1024

  // ---------------------------------------------------------------- paths

  /** Strictly below a directory: `path.startswith(root + "/")`. */
  predicate Under(root: Path, path: Path) {
    |path| > |root| && path[..|root|] == root && path[|root|] == '/'
  }

  /** The position of the last separator. */
  function LastSlash(path: Path): (r: int)
    ensures -1 <= r < |path|
    ensures r >= 0 ==> path[r] == '/'
    ensures forall i :: r < i < |path| ==> path[i] != '/'
  {
    if path == [] then -1
    else if path[|path| - 1] == '/' then |path| - 1
    else LastSlash(path[..|path| - 1])
  }

  /** `PurePosixPath.parent` of a normalized absolute path with at least two parts. */
  function Parent(path: Path): Path {
    if LastSlash(path) <= 0 then "/" else path[..LastSlash(path)]
  }

  lemma ParentOfUnder(root: Path, path: Path)
    requires |root| > 1 && Under(root, path)
    ensures Parent(path) == root || Under(root, Parent(path))
    ensures |Parent(path)| < |path|
  {
    var last := LastSlash(path);
    assert last >= |root|;
    assert path[..last][..|root|] == root;
  }

  /** The directories from a path up to, but without, the root. */
  function Ancestors(root: Path, path: Path): (r: set<Path>)
    requires |root| > 1
    ensures forall a :: a in r ==> Under(root, a)
    decreases |path|
  {
    if Under(root, path) && Under(root, Parent(path)) then
      ParentOfUnder(root, path);
      {Parent(path)} + Ancestors(root, Parent(path))
    else {}
  }

  lemma {:induction false} AncestorsClosed(root: Path, path: Path, a: Path)
    requires |root| > 1 && a in Ancestors(root, path)
    ensures Parent(a) == root || Parent(a) in Ancestors(root, path)
    decreases |path|
  {
    ParentOfUnder(root, path);
    ParentOfUnder(root, a);
    if a != Parent(path) {
      AncestorsClosed(root, Parent(path), a);
    }
  }

  // ---------------------------------------------------------------- the owned paths

  /** The root replaces the canonical one at the front of the path. */
  function Relocated(root: Path, r: Requirement): (q: Requirement)
    requires Under(CANONICAL_ROOT, r.path)
    ensures Under(root, q.path)
  {
    assert (root + r.path[|CANONICAL_ROOT|..])[..|root|] == root;
    r.(path := root + r.path[|CANONICAL_ROOT|..])
  }

  function RelocatedAll(root: Path, rs: seq<Requirement>): (r: seq<Requirement>)
    requires forall i :: 0 <= i < |rs| ==> Under(CANONICAL_ROOT, rs[i].path)
    ensures |r| == |rs| && forall i :: 0 <= i < |rs| ==> r[i] == Relocated(root, rs[i]) && Under(root, r[i].path)
  {
    seq(|rs|, i requires 0 <= i < |rs| => Relocated(root, rs[i]))
  }

  function Between(root: Path, paths: seq<Path>): (r: set<Path>)
    requires |root| > 1
    ensures forall a :: a in r ==> Under(root, a)
  {
    if paths == [] then {} else Between(root, paths[..|paths| - 1]) + Ancestors(root, paths[|paths| - 1])
  }

  lemma {:induction false} BetweenHas(root: Path, paths: seq<Path>, i: nat, a: Path)
    requires |root| > 1 && i < |paths| && a in Ancestors(root, paths[i])
    ensures a in Between(root, paths)
  {
    var n := |paths| - 1;
    if i < n {
      BetweenHas(root, paths[..n], i, a);
    }
  }

  lemma {:induction false} BetweenSource(root: Path, paths: seq<Path>, a: Path) returns (i: nat)
    requires |root| > 1 && a in Between(root, paths)
    ensures i < |paths| && a in Ancestors(root, paths[i])
  {
    var n := |paths| - 1;
    if a in Between(root, paths[..n]) {
      i := BetweenSource(root, paths[..n], a);
    } else {
      i := n;
    }
  }

  /** The directory that holds nothing itself but has to exist. */
  function Structural(path: Path): Requirement {
    Requirement(path, CORE_UID, 0, true)
  }

  function Structurals(paths: seq<Path>): (r: seq<Requirement>)
    ensures |r| == |paths| && forall i :: 0 <= i < |paths| ==> r[i] == Structural(paths[i])
  {
    seq(|paths|, i requires 0 <= i < |paths| => Structural(paths[i]))
  }

  predicate ByPath(a: Requirement, b: Requirement) { CodeLess(a.path, b.path) }

  /** The climb from one owned path towards the root. */
  method Climb(root: Path, path: Path, structural: set<Path>) returns (r: set<Path>)
    requires |root| > 1 && Under(root, path)
    ensures r == structural + Ancestors(root, path)
  {
    r := structural;
    ParentOfUnder(root, path);
    var at, parent := path, Parent(path);
    while Under(root, parent)
      invariant Under(root, at) && parent == Parent(at)
      invariant r + Ancestors(root, at) == structural + Ancestors(root, path)
      decreases |at|
    {
      ParentOfUnder(root, at);
      r := r + {parent};
      at := parent;
      ParentOfUnder(root, at);
      parent := Parent(at);
    }
  }

  datatype Manifest = Manifest(owned: seq<Requirement>, disk: nat, backup: Path, rollback: Path)

  lemma {:induction false} TotalConcat(a: seq<Requirement>, b: seq<Requirement>)
    ensures Total(a + b) == Total(a) + Total(b)
  {
    if a == [] {
      assert a + b == b;
    } else {
      TotalConcat(a[1..], b);
      assert (a + b)[1..] == a[1..] + b;
    }
  }

  lemma {:induction false} TotalInsert(x: Requirement, s: seq<Requirement>)
    ensures Total(Insert(x, s, ByPath)) == x.required + Total(s)
  {
    if s != [] && !ByPath(x, s[0]) {
      TotalInsert(x, s[1..]);
    }
  }

  lemma {:induction false} TotalSort(s: seq<Requirement>)
    ensures Total(Sort(s, ByPath)) == Total(s)
  {
    if s != [] {
      TotalSort(s[1..]);
      TotalInsert(s[0], Sort(s[1..], ByPath));
    }
  }

  lemma {:induction false} NoStructuralDemand(paths: seq<Path>)
    ensures Total(Structurals(paths)) == 0
  {
    if paths != [] {
      NoStructuralDemand(paths[1..]);
      assert Structurals(paths)[1..] == Structurals(paths[1..]);
    }
  }

  lemma {:induction false} RelocatedTotal(root: Path, rs: seq<Requirement>)
    requires forall i :: 0 <= i < |rs| ==> Under(CANONICAL_ROOT, rs[i].path)
    ensures Total(RelocatedAll(root, rs)) == Total(rs)
  {
    if rs != [] {
      RelocatedTotal(root, rs[1..]);
      assert RelocatedAll(root, rs)[1..] == RelocatedAll(root, rs[1..]);
    }
  }

  lemma RelocatedDistinct(root: Path, rs: seq<Requirement>)
    requires DistinctPaths(rs) && forall i :: 0 <= i < |rs| ==> Under(CANONICAL_ROOT, rs[i].path)
    ensures DistinctPaths(RelocatedAll(root, rs))
  {
    var moved := RelocatedAll(root, rs);
    forall i, j | 0 <= i < j < |rs| ensures moved[i].path != moved[j].path {
      assert rs[i].path == CANONICAL_ROOT + moved[i].path[|root|..];
      assert rs[j].path == CANONICAL_ROOT + moved[j].path[|root|..];
    }
  }

  // ---------------------------------------------------------------- _manifest

  function Budget(minimum: nat): nat {
    if minimum < LEAST_BUDGET then LEAST_BUDGET else minimum
  }

  function Recovery(root: Path, suffix: Path, budget: nat): Requirement {
    Requirement(root + suffix, CORE_UID, budget, true)
  }

  ghost predicate Canonical(rs: seq<Requirement>) {
    DistinctPaths(rs) && forall i :: 0 <= i < |rs| ==> Under(CANONICAL_ROOT, rs[i].path)
  }

  /** The directories that only connect: the root and everything between it and a requirement, unless required itself. */
  function Connecting(root: Path, moved: seq<Requirement>): set<Path>
    requires |root| > 1
  {
    {root} + Between(root, PathsOf(moved)) - (set p | p in PathsOf(moved))
  }

  /** All owned paths before they are sorted. */
  function Gathered(root: Path, moved: seq<Requirement>, links: seq<Path>, budget: nat): seq<Requirement> {
    moved + Structurals(links) + [Recovery(root, "-backups", budget), Recovery(root, "-rollback", budget)]
  }

  /** Which requirements a manifest owns. */
  ghost predicate Owns(root: Path, moved: seq<Requirement>, budget: nat, r: Requirement)
    requires |root| > 1
  {
    || r in moved
    || (r == Structural(r.path) && r.path in Connecting(root, moved))
    || r == Recovery(root, "-backups", budget)
    || r == Recovery(root, "-rollback", budget)
  }

  lemma RecoveryApart(root: Path, suffix: Path, path: Path)
    requires |suffix| > 1 && suffix[0] == '-' && (path == root || Under(root, path))
    ensures path != root + suffix
  {
    assert (root + suffix)[|root|] == '-';
  }

  lemma GatheredMembers(root: Path, moved: seq<Requirement>, links: seq<Path>, budget: nat, r: Requirement)
    requires |root| > 1 && forall p :: p in links <==> p in Connecting(root, moved)
    ensures r in Gathered(root, moved, links, budget) <==> Owns(root, moved, budget, r)
  {
    var linked := Structurals(links);
    if r in linked {
      var i :| 0 <= i < |linked| && linked[i] == r;
      assert r.path in links;
    }
    if r == Structural(r.path) && r.path in links {
      var i :| 0 <= i < |links| && links[i] == r.path;
      assert linked[i] == r;
    }
  }

  lemma GatheredDistinct(root: Path, moved: seq<Requirement>, links: seq<Path>, budget: nat)
    requires |root| > 1 && DistinctPaths(moved) && (forall i :: 0 <= i < |moved| ==> Under(root, moved[i].path))
    requires DistinctStrings(links) && forall p :: p in links <==> p in Connecting(root, moved)
    ensures DistinctPaths(Gathered(root, moved, links, budget))
  {
    var linked := Structurals(links);
    forall i, j | 0 <= i < |moved| && 0 <= j < |links| ensures moved[i].path != linked[j].path {
      assert PathsOf(moved)[i] == moved[i].path;
      assert links[j] in links;
    }
    var both := moved + linked;
    assert DistinctPaths(both);
    forall i | 0 <= i < |both| ensures both[i].path == root || Under(root, both[i].path) {
      if i >= |moved| {
        assert links[i - |moved|] in links;
      }
    }
    forall i | 0 <= i < |both|
      ensures both[i].path != root + "-backups" && both[i].path != root + "-rollback"
    {
      RecoveryApart(root, "-backups", both[i].path);
      RecoveryApart(root, "-rollback", both[i].path);
    }
    assert (root + "-backups")[|root| + 1] != (root + "-rollback")[|root| + 1];
  }

  lemma GatheredTotal(root: Path, moved: seq<Requirement>, links: seq<Path>, budget: nat)
    ensures Total(Gathered(root, moved, links, budget)) == Total(moved) + 2 * budget
  {
    var two := [Recovery(root, "-backups", budget), Recovery(root, "-rollback", budget)];
    assert two[1..] == [Recovery(root, "-rollback", budget)];
    assert two[1..][1..] == [];
    assert Total(two[1..]) == two[1].required + Total(two[1..][1..]);
    TotalConcat(moved + Structurals(links), two);
    TotalConcat(moved, Structurals(links));
    NoStructuralDemand(links);
  }

  /** Sorting by path keeps the members and makes the order strict. */
  lemma SortedByPath(rs: seq<Requirement>)
    requires DistinctPaths(rs)
    ensures Sorted(Sort(rs, ByPath), ByPath) && DistinctPaths(Sort(rs, ByPath))
    ensures forall r :: r in Sort(rs, ByPath) <==> r in rs
  {
    CodeLessStrict();
    assert StrictOrder(ByPath);
    forall i, j | 0 <= i < j < |rs| ensures ByPath(rs[i], rs[j]) || ByPath(rs[j], rs[i]) {
      CodeLessConnected(rs[i].path, rs[j].path);
    }
    SortPermutes(rs, ByPath);
    SortSorts(rs, ByPath);
    forall r ensures r in Sort(rs, ByPath) <==> r in rs {
      assert r in Sort(rs, ByPath) <==> r in multiset(Sort(rs, ByPath));
      assert r in rs <==> r in multiset(rs);
    }
  }

  /** The connecting directories, sorted. */
  method Connect(root: Path, moved: seq<Requirement>) returns (links: seq<Path>)
    requires |root| > 1 && forall i :: 0 <= i < |moved| ==> Under(root, moved[i].path)
    ensures DistinctStrings(links) && forall p :: p in links <==> p in Connecting(root, moved)
  {
    var structural := {root};
    var paths := PathsOf(moved);
    for i := 0 to |moved|
      invariant structural == {root} + Between(root, paths[..i])
    {
      structural := Climb(root, moved[i].path, structural);
      assert paths[..i + 1][..i] == paths[..i];
    }
    assert paths[..|moved|] == paths;
    links := SortedElements(structural - (set p | p in paths));
  }

  /** What sorting the gathered requirements gives. */
  lemma GatheredFacts(root: Path, moved: seq<Requirement>, links: seq<Path>, budget: nat)
    requires |root| > 1 && DistinctPaths(moved) && (forall i :: 0 <= i < |moved| ==> Under(root, moved[i].path))
    requires DistinctStrings(links) && forall p :: p in links <==> p in Connecting(root, moved)
    ensures var owned := Sort(Gathered(root, moved, links, budget), ByPath);
            && DistinctPaths(owned) && Sorted(owned, ByPath) && Total(owned) == Total(moved) + 2 * budget
            && forall r :: r in owned <==> Owns(root, moved, budget, r)
  {
    var all := Gathered(root, moved, links, budget);
    GatheredDistinct(root, moved, links, budget);
    GatheredTotal(root, moved, links, budget);
    forall r ensures r in all <==> Owns(root, moved, budget, r) {
      GatheredMembers(root, moved, links, budget, r);
    }
    SortedByPath(all);
    TotalSort(all);
  }

  /** `_manifest`, as far as owned paths and disk go. */
  method BuildManifest(root: Path, rs: seq<Requirement>) returns (m: Manifest)
    requires |root| > 1 && Canonical(rs)
    ensures DistinctPaths(m.owned) && Sorted(m.owned, ByPath)
    ensures forall r :: r in m.owned <==> Owns(root, RelocatedAll(root, rs), Budget(Total(rs)), r)
    ensures m.disk == Total(m.owned) == Total(rs) + 2 * (if Total(rs) < 1024 then 1024 else Total(rs))
    ensures m.backup == root + "-backups" && m.rollback == root + "-rollback"
  {
    var moved := RelocatedAll(root, rs);
    RelocatedTotal(root, rs);
    RelocatedDistinct(root, rs);
    var budget := Budget(Total(moved));
    var links := Connect(root, moved);
    GatheredFacts(root, moved, links, budget);
    var owned := Sort(Gathered(root, moved, links, budget), ByPath);
    return Manifest(owned, Total(owned), root + "-backups", root + "-rollback");
  }

  /** Some owned requirement has this path. */
  ghost predicate OwnsPath(root: Path, rs: seq<Requirement>, path: Path)
    requires |root| > 1 && Canonical(rs)
  {
    exists r :: Owns(root, RelocatedAll(root, rs), Budget(Total(rs)), r) && r.path == path
  }

  lemma OwnsIts(root: Path, rs: seq<Requirement>, r: Requirement)
    requires |root| > 1 && Canonical(rs) && Owns(root, RelocatedAll(root, rs), Budget(Total(rs)), r)
    ensures OwnsPath(root, rs, r.path)
  {}

  lemma LinkOwned(root: Path, rs: seq<Requirement>, path: Path)
    requires |root| > 1 && Canonical(rs)
    requires path == root || path in Between(root, PathsOf(RelocatedAll(root, rs)))
    ensures OwnsPath(root, rs, path)
  {
    var moved := RelocatedAll(root, rs);
    var r := OwnsLink(root, moved, Budget(Total(rs)), path);
    OwnsIts(root, rs, r);
  }

  lemma OwnsLink(root: Path, moved: seq<Requirement>, budget: nat, path: Path) returns (r: Requirement)
    requires |root| > 1 && (path == root || path in Between(root, PathsOf(moved)))
    ensures Owns(root, moved, budget, r) && r.path == path
  {
    if i :| 0 <= i < |moved| && moved[i].path == path {
      r := moved[i];
    } else {
      assert path !in PathsOf(moved);
      r := Structural(path);
    }
  }

  /** Below the root only requirements and connecting directories are owned. */
  lemma OwnedBelow(root: Path, moved: seq<Requirement>, budget: nat, r: Requirement)
    requires |root| > 1 && Owns(root, moved, budget, r) && Under(root, r.path)
    ensures r.path in PathsOf(moved) || r.path in Between(root, PathsOf(moved))
  {
    RecoveryApart(root, "-backups", r.path);
    RecoveryApart(root, "-rollback", r.path);
    if r in moved {
      var i :| 0 <= i < |moved| && moved[i] == r;
      assert PathsOf(moved)[i] == r.path;
    }
  }

  /** The owned paths reach the data root: it is owned, and with every path below it its parent directory is owned. */
  lemma AncestorClosed(root: Path, rs: seq<Requirement>, path: Path)
    requires |root| > 1 && Canonical(rs)
    ensures OwnsPath(root, rs, root)
    ensures OwnsPath(root, rs, path) && Under(root, path) ==> OwnsPath(root, rs, Parent(path))
  {
    var moved := RelocatedAll(root, rs);
    var paths := PathsOf(moved);
    LinkOwned(root, rs, root);
    if OwnsPath(root, rs, path) && Under(root, path) {
      ParentOfUnder(root, path);
      var r :| Owns(root, moved, Budget(Total(rs)), r) && r.path == path;
      OwnedBelow(root, moved, Budget(Total(rs)), r);
      if Parent(path) != root {
        ParentBetween(root, paths, path);
        LinkOwned(root, rs, Parent(path));
      }
    }
  }

  lemma ParentBetween(root: Path, paths: seq<Path>, path: Path)
    requires |root| > 1 && Under(root, path) && Under(root, Parent(path))
    requires path in paths || path in Between(root, paths)
    ensures Parent(path) in Between(root, paths)
  {
    if path in paths {
      var i :| 0 <= i < |paths| && paths[i] == path;
      BetweenHas(root, paths, i, Parent(path));
    } else {
      var i := BetweenSource(root, paths, path);
      AncestorsClosed(root, paths[i], path);
      BetweenHas(root, paths, i, Parent(path));
    }
  }

  // ---------------------------------------------------------------- from services to the manifest

  ghost predicate CanonicalMounts(services: seq<Service>) {
    forall i, j :: 0 <= i < |services| && 0 <= j < |services[i].mounts| ==>
      Under(CANONICAL_ROOT, services[i].mounts[j].source)
  }

  lemma {:induction false} UsesCanonical(services: seq<Service>, k: nat)
    requires CanonicalMounts(services) && k < |Uses(services)|
    ensures Under(CANONICAL_ROOT, Uses(services)[k].path)
  {
    var n := |services| - 1;
    if k < |Uses(services[..n])| {
      UsesCanonical(services[..n], k);
    }
  }

  lemma RequirementsCanonical(services: seq<Service>, rs: seq<Requirement>)
    requires CanonicalMounts(services) && Requirements(Uses(services), rs)
    ensures Canonical(rs)
  {
    var uses, paths := Uses(services), PathsOf(rs);
    forall i | 0 <= i < |rs| ensures Under(CANONICAL_ROOT, rs[i].path) {
      assert paths[i] in paths;
      assert Mounted(uses, paths[i]);
      var k :| 0 <= k < |uses| && uses[k].path == paths[i];
      UsesCanonical(services, k);
    }
    forall i, j | 0 <= i < j < |rs| ensures rs[i].path != rs[j].path {
      assert paths[i] != paths[j];
    }
  }

  /** The manifest owns exactly the paths that requirements read off these services lead to. */
  ghost predicate PlanOf(services: seq<Service>, root: Path, owned: seq<Requirement>)
    requires |root| > 1
  {
    exists rs ::
      && Requirements(Uses(services), rs) && Canonical(rs)
      && forall r :: r in owned <==> Owns(root, RelocatedAll(root, rs), Budget(Total(rs)), r)
  }

  /** The manifest of a whole package: its disk demand comes from the minima of the components, whatever their mounts. */
  method PlanDeployment(services: seq<Service>, root: Path) returns (m: Option<Manifest>)
    requires |root| > 1 && CanonicalMounts(services)
    ensures m.Some? <==> AllOwned(Uses(services))
    ensures m.Some? ==> m.value.disk == Minima(services) + 2 * (if Minima(services) < 1024 then 1024 else Minima(services))
    ensures m.Some? ==> DistinctPaths(m.value.owned) && Sorted(m.value.owned, ByPath)
    ensures m.Some? ==> PlanOf(services, root, m.value.owned)
  {
    var rs := DirectoryRequirements(services);
    if rs.None? {
      return None;
    }
    RequirementsCanonical(services, rs.value);
    MinimumCountedOnce(services, rs.value);
    var manifest := BuildManifest(root, rs.value);
    return Some(manifest);
  }
}
