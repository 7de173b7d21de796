/** Who owns which directory and how much disk is demanded, read off the mounts of the services and the literal values. */
module OwnershipRules {
  import opened Wrappers
  import opened StoragePreflight
  import opened DirectoryPlan
  import opened DeploymentManifest

  // ---------------------------------------------------------------- mounts

  /** One mount of one service has this source. */
  ghost predicate MountAt(services: seq<Service>, a: nat, b: nat, path: Path) {
    a < |services| && b < |services[a].mounts| && services[a].mounts[b].source == path
  }

  ghost predicate WriteAt(services: seq<Service>, a: nat, b: nat, path: Path) {
    MountAt(services, a, b, path) && !services[a].mounts[b].readOnly
  }

  ghost predicate SecretAt(services: seq<Service>, a: nat, b: nat, path: Path) {
    MountAt(services, a, b, path) && services[a].mounts[b].target == "/secrets"
  }

  lemma {:induction false} UseFrom(services: seq<Service>, k: nat) returns (a: nat, b: nat)
    requires k < |Uses(services)|
    ensures a < |services| && b < |services[a].mounts| && Uses(services)[k] == UseOf(services[a], b)
  {
    var n := |services| - 1;
    var before := Uses(services[..n]);
    if k < |before| {
      a, b := UseFrom(services[..n], k);
    } else {
      a, b := n, k - |before|;
    }
  }

  lemma {:induction false} UseAt(services: seq<Service>, a: nat, b: nat) returns (k: nat)
    requires a < |services| && b < |services[a].mounts|
    ensures k < |Uses(services)| && Uses(services)[k] == UseOf(services[a], b)
  {
    var n := |services| - 1;
    if a < n {
      k := UseAt(services[..n], a, b);
    } else {
      k := |Uses(services[..n])| + b;
    }
  }

  lemma MountedMeans(services: seq<Service>, path: Path)
    ensures Mounted(Uses(services), path) <==> exists a: nat, b: nat :: MountAt(services, a, b, path)
  {
    var uses := Uses(services);
    if Mounted(uses, path) {
      var k: nat :| k < |uses| && uses[k].path == path;
      var a, b := UseFrom(services, k);
      assert MountAt(services, a, b, path);
    }
    if a: nat, b: nat :| MountAt(services, a, b, path) {
      var k := UseAt(services, a, b);
    }
  }

  lemma WritesMeans(services: seq<Service>, path: Path, uid: int)
    ensures Writes(Uses(services), path, uid) <==>
            exists a: nat, b: nat :: WriteAt(services, a, b, path) && services[a].uid == uid
  {
    var uses := Uses(services);
    if Writes(uses, path, uid) {
      var k: nat :| k < |uses| && uses[k].path == path && uses[k].writes && uses[k].uid == uid;
      var a, b := UseFrom(services, k);
      assert WriteAt(services, a, b, path);
    }
    if a: nat, b: nat :| WriteAt(services, a, b, path) && services[a].uid == uid {
      var k := UseAt(services, a, b);
    }
  }

  lemma SecretMeans(services: seq<Service>, path: Path)
    ensures Secret(Uses(services), path) <==> exists a: nat, b: nat :: SecretAt(services, a, b, path)
  {
    var uses := Uses(services);
    if Secret(uses, path) {
      var k: nat :| k < |uses| && uses[k].path == path && uses[k].secret;
      var a, b := UseFrom(services, k);
      assert SecretAt(services, a, b, path);
    }
    if a: nat, b: nat :| SecretAt(services, a, b, path) {
      var k := UseAt(services, a, b);
    }
  }

  /** The user of every service that mounts the path writable, and of at least one. */
  ghost predicate OnlyUser(services: seq<Service>, path: Path, uid: int) {
    && (exists a: nat, b: nat :: WriteAt(services, a, b, path))
    && (forall a: nat, b: nat :: WriteAt(services, a, b, path) ==> services[a].uid == uid)
  }

  lemma SoleWriterMeans(services: seq<Service>, path: Path, uid: int)
    ensures SoleWriter(Uses(services), path, uid) <==> OnlyUser(services, path, uid)
  {
    var uses := Uses(services);
    WritesMeans(services, path, uid);
    if SoleWriter(uses, path, uid) {
      forall a: nat, b: nat | WriteAt(services, a, b, path) ensures services[a].uid == uid {
        WritesMeans(services, path, services[a].uid);
      }
    }
    if OnlyUser(services, path, uid) {
      forall other | Writes(uses, path, other) ensures other == uid {
        WritesMeans(services, path, other);
      }
    }
  }

  /** A package is planned exactly when every mounted path has one user who writes to it. */
  lemma PlannedExactly(services: seq<Service>)
    ensures AllOwned(Uses(services)) <==>
            forall a: nat, b: nat, path :: MountAt(services, a, b, path) ==> exists uid :: OnlyUser(services, path, uid)
  {
    var uses := Uses(services);
    if AllOwned(uses) {
      forall a: nat, b: nat, path | MountAt(services, a, b, path) ensures exists uid :: OnlyUser(services, path, uid) {
        MountedMeans(services, path);
        var uid :| SoleWriter(uses, path, uid);
        SoleWriterMeans(services, path, uid);
      }
    }
    if forall a: nat, b: nat, path :: MountAt(services, a, b, path) ==> exists uid :: OnlyUser(services, path, uid) {
      forall path | Mounted(uses, path) ensures HasOwner(uses, path) {
        MountedMeans(services, path);
        var a: nat, b: nat :| MountAt(services, a, b, path);
        var uid :| OnlyUser(services, path, uid);
        SoleWriterMeans(services, path, uid);
      }
    }
  }

  /** What one requirement says of the services: its path is mounted, who owns it, and that secrets are private. */
  lemma RequirementMeans(services: seq<Service>, rs: seq<Requirement>, i: nat)
    requires Requirements(Uses(services), rs) && i < |rs|
    ensures OnlyUser(services, rs[i].path, rs[i].owner)
    ensures rs[i].private <==> exists a: nat, b: nat :: SecretAt(services, a, b, rs[i].path)
    ensures rs[i].required == Charged(Uses(services), rs[i].path)
  {
    assert Derived(Uses(services), rs[i]);
    SoleWriterMeans(services, rs[i].path, rs[i].owner);
    SecretMeans(services, rs[i].path);
  }

  lemma RequirementPaths(services: seq<Service>, rs: seq<Requirement>, path: Path)
    requires Requirements(Uses(services), rs)
    ensures (exists i :: 0 <= i < |rs| && rs[i].path == path) <==> exists a: nat, b: nat :: MountAt(services, a, b, path)
  {
    var paths := PathsOf(rs);
    MountedMeans(services, path);
    if path in paths {
      var i :| 0 <= i < |paths| && paths[i] == path;
      assert rs[i].path == path;
    }
    if i :| 0 <= i < |rs| && rs[i].path == path {
      assert paths[i] == path;
    }
  }

  // ---------------------------------------------------------------- where a minimum is charged

  /** The order in which the targets are tried. */
  function Place(target: Path): nat {
    if target == "/data" then 0 else if target == "/config" then 1 else if target == "/app/config" then 2 else 3
  }

  /** No writable mount has a better target, and no earlier one an equally good one. */
  ghost predicate Best(mounts: seq<Mount>, i: nat) {
    && i < |mounts| && !mounts[i].readOnly
    && forall j :: 0 <= j < |mounts| && !mounts[j].readOnly ==>
         Place(mounts[i].target) < Place(mounts[j].target)
         || (Place(mounts[i].target) == Place(mounts[j].target) && i <= j)
  }

  lemma SuitsMeans(mounts: seq<Mount>, target: Path, j: nat)
    requires j < |mounts|
    ensures Suits(mounts[j], Some(target)) <==> !mounts[j].readOnly && mounts[j].target == target
    ensures Suits(mounts[j], None) <==> !mounts[j].readOnly
    ensures Suits(mounts[j], Some(target)) ==> AnySuits(mounts, Some(target))
  {}

  lemma PreferredIsBest(mounts: seq<Mount>, i: nat)
    requires Preferred(mounts) == Some(i)
    ensures Best(mounts, i)
  {
    forall j: nat | j < |mounts| && !mounts[j].readOnly
      ensures Place(mounts[i].target) < Place(mounts[j].target)
              || (Place(mounts[i].target) == Place(mounts[j].target) && i <= j)
    {
      SuitsMeans(mounts, "/data", j);
      SuitsMeans(mounts, "/config", j);
      SuitsMeans(mounts, "/app/config", j);
      SuitsMeans(mounts, "/data", i);
      SuitsMeans(mounts, "/config", i);
      SuitsMeans(mounts, "/app/config", i);
    }
  }

  lemma BestIsOne(mounts: seq<Mount>, i: nat, j: nat)
    requires Best(mounts, i) && Best(mounts, j)
    ensures i == j
  {}

  /** The best mount carries the minimum; there is none exactly when nothing is writable. */
  lemma PreferredMeans(mounts: seq<Mount>)
    ensures Preferred(mounts).Some? <==> exists i :: 0 <= i < |mounts| && !mounts[i].readOnly
    ensures forall i: nat :: Preferred(mounts) == Some(i) <==> Best(mounts, i)
  {
    if i :| 0 <= i < |mounts| && !mounts[i].readOnly {
      assert Suits(mounts[i], None);
    }
    if Preferred(mounts).Some? {
      PreferredIsBest(mounts, Preferred(mounts).value);
    }
    forall i: nat | Best(mounts, i) ensures Preferred(mounts) == Some(i) {
      assert Suits(mounts[i], None);
      BestIsOne(mounts, i, Preferred(mounts).value);
    }
  }

  /** What one more service adds to the requirement of a path: its minimum, if its best mount has that source. */
  function Share(s: Service, path: Path): nat {
    if s.minimum.Some? && Preferred(s.mounts).Some? && s.mounts[Preferred(s.mounts).value].source == path
    then s.minimum.value else 0
  }

  lemma {:induction false} ChargedConcat(a: seq<Use>, b: seq<Use>, path: Path)
    ensures Charged(a + b, path) == Charged(a, path) + Charged(b, path)
  {
    if b == [] {
      assert a + b == a;
    } else {
      var n := |b| - 1;
      ChargedConcat(a, b[..n], path);
      assert (a + b)[..|a| + n] == a + b[..n];
    }
  }

  lemma {:induction false} ServiceShare(s: Service, count: nat, path: Path)
    requires count <= |s.mounts|
    ensures Charged(UsesOf(s, count), path) ==
            if Preferred(s.mounts).Some? && Preferred(s.mounts).value < count then Share(s, path) else 0
  {
    if count > 0 {
      ServiceShare(s, count - 1, path);
      assert UsesOf(s, count)[..count - 1] == UsesOf(s, count - 1);
    }
  }

  lemma UsesSnoc(services: seq<Service>, s: Service)
    ensures Uses(services + [s]) == Uses(services) + UsesOf(s, |s.mounts|)
  {
    assert (services + [s])[..|services|] == services;
  }

  /** Each service charges the path of its best mount with its minimum, and no other path. */
  lemma ChargedSnoc(services: seq<Service>, s: Service, path: Path)
    ensures Charged(Uses(services + [s]), path) == Charged(Uses(services), path) + Share(s, path)
    ensures Charged(Uses([]), path) == 0
    ensures forall i: nat :: Best(s.mounts, i) ==>
              Share(s, path) == if s.minimum.Some? && s.mounts[i].source == path then s.minimum.value else 0
  {
    UsesSnoc(services, s);
    ChargedConcat(Uses(services), UsesOf(s, |s.mounts|), path);
    ServiceShare(s, |s.mounts|, path);
    PreferredMeans(s.mounts);
  }

  /** Each service with a writable mount adds its minimum to the whole. */
  lemma MinimaSnoc(services: seq<Service>, s: Service)
    ensures Minima([]) == 0
    ensures Minima(services + [s]) ==
            Minima(services) + if s.minimum.Some? && (exists i :: 0 <= i < |s.mounts| && !s.mounts[i].readOnly)
                               then s.minimum.value else 0
  {
    assert (services + [s])[..|services|] == services;
    PreferredMeans(s.mounts);
  }

  lemma TotalSnoc(rs: seq<Requirement>, r: Requirement)
    ensures Total([]) == 0 && Total(rs + [r]) == Total(rs) + r.required
  {
    TotalConcat(rs, [r]);
    assert [r][1..] == [];
    assert Total([r]) == r.required + Total([r][1..]);
  }

  // ---------------------------------------------------------------- the owned paths

  /** The directories between a path and the root are those strictly below the root that the path is strictly below. */
  lemma {:induction false} AncestorsMean(root: Path, path: Path, a: Path)
    requires |root| > 1 && Under(root, path)
    ensures a in Ancestors(root, path) <==> Under(root, a) && Under(a, path)
    decreases |path|
  {
    var parent := Parent(path);
    ParentOfUnder(root, path);
    UnderParent(root, path, a);
    if Under(root, parent) {
      AncestorsMean(root, parent, a);
    }
  }

  lemma UnderParent(root: Path, path: Path, a: Path)
    requires |root| > 1 && Under(root, path)
    ensures Under(root, a) && Under(a, path) <==>
            Under(root, a) && Under(root, Parent(path)) && (a == Parent(path) || Under(a, Parent(path)))
  {
    var last := LastSlash(path);
    assert last >= |root|;
    var parent := path[..last];
    assert Under(parent, path);
    if Under(a, path) && Under(root, a) {
      assert |a| <= last && a == path[..|a|];
      if |a| == last {
        assert a == parent;
      } else {
        assert parent[..|a|] == a && parent[|a|] == '/';
        assert parent[|root|] == a[|root|] && parent[..|root|] == a[..|root|];
      }
    }
    if Under(a, parent) {
      assert path[..|a|] == parent[..|a|] && path[|a|] == parent[|a|];
    }
  }

  /** The requirement's path with the chosen root in the place of `/var/lib/larenor-server`. */
  function Moved(root: Path, path: Path): Path {
    if |path| < |"/var/lib/larenor-server"| then root else root + path[|"/var/lib/larenor-server"|..]
  }

  /** The path lies strictly between the root and this required path. */
  ghost predicate Leads(root: Path, rs: seq<Requirement>, i: nat, path: Path) {
    i < |rs| && Under(root, path) && Under(path, Moved(root, rs[i].path))
  }

  /** The path is the root, or lies between the root and some required path. */
  ghost predicate Connects(root: Path, rs: seq<Requirement>, path: Path) {
    path == root || exists i: nat :: Leads(root, rs, i, path)
  }

  /** The rows of a manifest, with every value written out. */
  ghost predicate OwnedRow(root: Path, rs: seq<Requirement>, r: Requirement) {
    || (exists i :: 0 <= i < |rs| && r == Requirement(Moved(root, rs[i].path), rs[i].owner, rs[i].required, rs[i].private))
    || (&& r.owner == 10001 && r.required == 0 && r.private && Connects(root, rs, r.path)
        && forall i :: 0 <= i < |rs| ==> r.path != Moved(root, rs[i].path))
    || (&& r.owner == 10001 && r.required == (if Total(rs) < 1024 then 1024 else Total(rs)) && r.private
        && (r.path == root + "-backups" || r.path == root + "-rollback"))
  }

  lemma MovedAt(root: Path, rs: seq<Requirement>, i: nat)
    requires Canonical(rs) && i < |rs|
    ensures RelocatedAll(root, rs)[i] == Requirement(Moved(root, rs[i].path), rs[i].owner, rs[i].required, rs[i].private)
    ensures PathsOf(RelocatedAll(root, rs))[i] == Moved(root, rs[i].path)
  {}

  lemma MovedPaths(root: Path, rs: seq<Requirement>, path: Path)
    requires Canonical(rs)
    ensures path in PathsOf(RelocatedAll(root, rs)) <==> exists i :: 0 <= i < |rs| && path == Moved(root, rs[i].path)
  {
    var paths := PathsOf(RelocatedAll(root, rs));
    forall i: nat | i < |rs| ensures paths[i] == Moved(root, rs[i].path) {
      MovedAt(root, rs, i);
    }
    if path in paths {
      var i :| 0 <= i < |paths| && paths[i] == path;
      assert path == Moved(root, rs[i].path);
    }
  }

  lemma MovedRows(root: Path, rs: seq<Requirement>, r: Requirement)
    requires Canonical(rs)
    ensures r in RelocatedAll(root, rs) <==>
            exists i :: 0 <= i < |rs| && r == Requirement(Moved(root, rs[i].path), rs[i].owner, rs[i].required, rs[i].private)
  {
    var moved := RelocatedAll(root, rs);
    if r in moved {
      var i: nat :| i < |moved| && moved[i] == r;
      MovedAt(root, rs, i);
    }
    if i: nat :| i < |rs| && r == Requirement(Moved(root, rs[i].path), rs[i].owner, rs[i].required, rs[i].private) {
      MovedAt(root, rs, i);
      assert moved[i] == r;
    }
  }

  lemma BetweenLeads(root: Path, rs: seq<Requirement>, path: Path) returns (i: nat)
    requires |root| > 1 && Canonical(rs) && path in Between(root, PathsOf(RelocatedAll(root, rs)))
    ensures Leads(root, rs, i, path)
  {
    var moved := RelocatedAll(root, rs);
    i := BetweenSource(root, PathsOf(moved), path);
    MovedAt(root, rs, i);
    AncestorsMean(root, moved[i].path, path);
  }

  lemma LeadsBetween(root: Path, rs: seq<Requirement>, i: nat, path: Path)
    requires |root| > 1 && Canonical(rs) && Leads(root, rs, i, path)
    ensures path in Between(root, PathsOf(RelocatedAll(root, rs)))
  {
    var moved := RelocatedAll(root, rs);
    MovedAt(root, rs, i);
    AncestorsMean(root, moved[i].path, path);
    BetweenHas(root, PathsOf(moved), i, path);
  }

  lemma BetweenMeans(root: Path, rs: seq<Requirement>, path: Path)
    requires |root| > 1 && Canonical(rs)
    ensures path in Between(root, PathsOf(RelocatedAll(root, rs))) <==> exists i: nat :: Leads(root, rs, i, path)
  {
    if path in Between(root, PathsOf(RelocatedAll(root, rs))) {
      var i := BetweenLeads(root, rs, path);
    }
    if i: nat :| Leads(root, rs, i, path) {
      LeadsBetween(root, rs, i, path);
    }
  }

  /** Which rows a manifest holds: the moved requirements, the connecting directories and the two recovery targets. */
  lemma OwnedRows(root: Path, rs: seq<Requirement>, r: Requirement)
    requires |root| > 1 && Canonical(rs)
    ensures Owns(root, RelocatedAll(root, rs), Budget(Total(rs)), r) <==> OwnedRow(root, rs, r)
  {
    MovedRows(root, rs, r);
    MovedPaths(root, rs, r.path);
    BetweenMeans(root, rs, r.path);
  }
}
