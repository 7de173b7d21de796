/** The check that a fresh installation starts from exactly the owned directories. */
module CleanTree {
  import opened Wrappers

  const MAX_ENTRIES := 256

  /** An absolute path as its parts below `/`. */
  type Parts = seq<string>

  datatype Kind = Directory | Other

  type Tree = map<Parts, Kind>

  /** Everything but the root has a name and lies in a directory. */
  ghost predicate Placed(fs: Tree, p: Parts) {
    p != [] ==> Name(p) != "" && Above(p) in fs && fs[Above(p)] == Directory
  }

  ghost predicate WellFormed(fs: Tree) {
    && [] in fs && fs[[]] == Directory
    && forall p {:trigger Placed(fs, p)} :: p in fs ==> Placed(fs, p)
  }

  /** `PurePosixPath.parent`; the root is its own parent. */
  function Above(p: Parts): Parts { if p == [] then [] else p[..|p| - 1] }

  /** `PurePosixPath.name`; the root has an empty name. */
  function Name(p: Parts): string { if p == [] then "" else p[|p| - 1] }

  ghost predicate IsDirectory(fs: Tree, p: Parts) { p in fs && fs[p] == Directory }

  /** An order in which a directory may list its entries. */
  ghost predicate Lists(fs: Tree, p: Parts, names: seq<string>) {
    && (forall i, j :: 0 <= i < j < |names| ==> names[i] != names[j])
    && (forall n :: n in names <==> p + [n] in fs && n != "")
  }

  predicate Beneath(p: Parts, q: Parts) { |p| < |q| && q[..|p|] == p }

  /** Nothing lies beneath an owned directory except owned paths. */
  ghost predicate OnlyOwned(fs: Tree, paths: seq<Parts>) {
    forall p, q :: p in paths && q in fs && Beneath(p, q) ==> q in paths
  }

  ghost predicate Distinct(paths: seq<Parts>) {
    forall i, j :: 0 <= i < j < |paths| ==> paths[i] != paths[j]
  }

  /** The names that owned paths have directly below `p`. */
  function Expected(paths: seq<Parts>, p: Parts): set<string> {
    set i | 0 <= i < |paths| && Above(paths[i]) == p :: Name(paths[i])
  }

  /** The directory lists exactly what is expected of it. */
  ghost predicate AsExpected(fs: Tree, paths: seq<Parts>, p: Parts) {
    forall n :: n in Expected(paths, p) <==> p + [n] in fs && n != ""
  }

  // ---------------------------------------------------------------- what the local comparison means

  /** If every owned directory lists what is expected, everything beneath, at any depth, is owned. */
  lemma {:induction false} LocalGivesDeep(fs: Tree, paths: seq<Parts>, p: Parts, q: Parts)
    requires WellFormed(fs) && p in paths && q in fs && Beneath(p, q)
    requires forall i :: 0 <= i < |paths| ==> AsExpected(fs, paths, paths[i])
    ensures q in paths
    decreases |q|
  {
    var d, n := Above(q), Name(q);
    assert q == d + [n] && Placed(fs, q);
    if d != p {
      assert d[..|p|] == p;
      LocalGivesDeep(fs, paths, p, d);
    }
    var i :| 0 <= i < |paths| && paths[i] == d;
    assert AsExpected(fs, paths, paths[i]);
    assert n in Expected(paths, d);
    var j :| 0 <= j < |paths| && Above(paths[j]) == d && Name(paths[j]) == n;
    assert paths[j] == q;
  }

  /** Conversely, owned contents and no root path make every listing the expected one. */
  lemma DeepGivesLocal(fs: Tree, paths: seq<Parts>, p: Parts)
    requires WellFormed(fs) && p in paths && [] !in paths && OnlyOwned(fs, paths)
    requires forall q :: q in paths ==> q in fs
    ensures AsExpected(fs, paths, p)
  {
    forall n ensures n in Expected(paths, p) <==> p + [n] in fs && n != "" {
      if n in Expected(paths, p) {
        var i :| 0 <= i < |paths| && Above(paths[i]) == p && Name(paths[i]) == n;
        assert paths[i] in paths && paths[i] == p + [n] && Placed(fs, paths[i]);
      }
      if p + [n] in fs && n != "" {
        assert Beneath(p, p + [n]);
        var i :| 0 <= i < |paths| && paths[i] == p + [n];
        assert Above(paths[i]) == p && Name(paths[i]) == n;
      }
    }
  }

  /** `/` never counts as clean: it is its own parent, and nothing lists an empty name. */
  lemma RootNeverClean(fs: Tree, paths: seq<Parts>)
    requires [] in paths
    ensures !AsExpected(fs, paths, [])
  {
    var i :| 0 <= i < |paths| && paths[i] == [];
    assert "" in Expected(paths, []);
  }

  /** The local comparisons hold exactly when every entry anywhere beneath an owned directory is owned. */
  lemma CleanMeans(fs: Tree, paths: seq<Parts>)
    requires WellFormed(fs) && forall q :: q in paths ==> q in fs
    ensures (forall i :: 0 <= i < |paths| ==> AsExpected(fs, paths, paths[i])) <==> [] !in paths && OnlyOwned(fs, paths)
  {
    if forall i :: 0 <= i < |paths| ==> AsExpected(fs, paths, paths[i]) {
      if [] in paths {
        RootNeverClean(fs, paths);
      }
      forall p, q | p in paths && q in fs && Beneath(p, q) ensures q in paths {
        LocalGivesDeep(fs, paths, p, q);
      }
    }
    if [] !in paths && OnlyOwned(fs, paths) {
      forall i | 0 <= i < |paths| ensures AsExpected(fs, paths, paths[i]) {
        DeepGivesLocal(fs, paths, paths[i]);
      }
    }
  }

  // ---------------------------------------------------------------- clean

  datatype Error = InspectionInvalid

  /** `_DirectoryTree.open`: every part on the way is a directory, links not followed. */
  method Open(fs: Tree, p: Parts) returns (ok: bool)
    requires WellFormed(fs)
    ensures ok <==> IsDirectory(fs, p)
  {
    for i := 0 to |p|
      invariant IsDirectory(fs, p[..i])
    {
      if p[..i + 1] !in fs || fs[p[..i + 1]] != Directory {
        NotBelow(fs, p, i + 1);
        return false;
      }
    }
    assert p[..|p|] == p;
    return true;
  }

  lemma {:induction false} NotBelow(fs: Tree, p: Parts, i: nat)
    requires WellFormed(fs) && i <= |p| && !IsDirectory(fs, p[..i])
    ensures !IsDirectory(fs, p)
    decreases |p| - i
  {
    if i == |p| {
      assert p[..i] == p;
    } else {
      assert p[..i + 1] in fs ==> Placed(fs, p[..i + 1]);
      assert Above(p[..i + 1]) == p[..i];
      NotBelow(fs, p, i + 1);
    }
  }

  lemma {:induction false} ExpectedSize(paths: seq<Parts>, p: Parts)
    ensures |Expected(paths, p)| <= |paths|
  {
    if paths != [] {
      var n := |paths| - 1;
      var front, last := paths[..n], paths[n];
      ExpectedSize(front, p);
      assert forall i :: 0 <= i < n ==> front[i] == paths[i];
      assert Expected(paths, p) == Expected(front, p) + if Above(last) == p then {Name(last)} else {};
    }
  }

  lemma {:induction false} NamesSize(names: seq<string>)
    requires forall i, j :: 0 <= i < j < |names| ==> names[i] != names[j]
    ensures |set n | n in names| == |names|
  {
    if names != [] {
      var n := |names| - 1;
      var front := names[..n];
      NamesSize(front);
      assert (set x | x in names) == (set x | x in front) + {names[n]};
    }
  }

  /** A directory with more entries than there are owned paths holds something that is not owned. */
  lemma TooMany(fs: Tree, paths: seq<Parts>, p: Parts, names: seq<string>)
    requires Lists(fs, p, names) && |names| > |paths|
    ensures !AsExpected(fs, paths, p)
  {
    ExpectedSize(paths, p);
    NamesSize(names);
    assert (set n | n in names) != Expected(paths, p);
  }

  /** One directory of the scan, listed in any order. */
  method ScanMatches(fs: Tree, paths: seq<Parts>, p: Parts, names: seq<string>) returns (ok: bool)
    requires |paths| <= MAX_ENTRIES && Lists(fs, p, names)
    ensures ok <==> AsExpected(fs, paths, p)
  {
    var entries: set<string> := {};
    for i := 0 to |names|
      invariant entries == set k | 0 <= k < i :: names[k]
      invariant |entries| == i <= MAX_ENTRIES
    {
      if i + 1 > MAX_ENTRIES {
        TooMany(fs, paths, p, names);
        return false;
      }
      if names[i] in entries {
        return false;
      }
      entries := entries + {names[i]};
    }
    assert forall n :: n in entries <==> n in names;
    return entries == Expected(paths, p);
  }

  /**
   `clean` on a tree that does not change meanwhile: an error when a path is repeated or is not a directory, and
   otherwise true exactly when every entry anywhere beneath an owned directory is owned.
   */
  method Clean(fs: Tree, paths: seq<Parts>, listing: Parts -> seq<string>) returns (r: Result<bool, Error>)
    requires WellFormed(fs) && forall p :: p in paths && IsDirectory(fs, p) ==> Lists(fs, p, listing(p))
    ensures r.Failure? <==>
              || !(1 <= |paths| <= 256) || !Distinct(paths) || exists p :: p in paths && !IsDirectory(fs, p)
    ensures r.Success? ==> (r.value <==> [] !in paths && OnlyOwned(fs, paths))
  {
    if !(1 <= |paths| <= MAX_ENTRIES) || (exists i, j :: 0 <= i < j < |paths| && paths[i] == paths[j]) {
      return Failure(InspectionInvalid);
    }
    var directories := OpenAll(fs, paths);
    if !directories {
      return Failure(InspectionInvalid);
    }
    CleanMeans(fs, paths);
    var matches := ScanAll(fs, paths, listing);
    return Success(matches);
  }

  method OpenAll(fs: Tree, paths: seq<Parts>) returns (ok: bool)
    requires WellFormed(fs)
    ensures ok <==> forall p :: p in paths ==> IsDirectory(fs, p)
  {
    for i := 0 to |paths|
      invariant forall k :: 0 <= k < i ==> IsDirectory(fs, paths[k])
    {
      ok := Open(fs, paths[i]);
      if !ok {
        assert paths[i] in paths;
        return false;
      }
    }
    return true;
  }

  method ScanAll(fs: Tree, paths: seq<Parts>, listing: Parts -> seq<string>) returns (ok: bool)
    requires |paths| <= MAX_ENTRIES && forall p :: p in paths ==> Lists(fs, p, listing(p))
    ensures ok <==> forall i :: 0 <= i < |paths| ==> AsExpected(fs, paths, paths[i])
  {
    for i := 0 to |paths|
      invariant forall k :: 0 <= k < i ==> AsExpected(fs, paths, paths[k])
    {
      ok := ScanMatches(fs, paths, paths[i], listing(paths[i]));
      if !ok {
        return false;
      }
    }
    return true;
  }
}
