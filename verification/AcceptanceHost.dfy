/** The host facts of the native acceptance run: everything is the real host's, except that capacity is raised to fit. */
module AcceptanceHost {
  import opened Wrappers
  import opened StoragePreflight

  const MAX_REQUIREMENTS := 64
  const MAX_REQUIRED := 1024 * 1024

  /** The fact takes part in the sum of its device. */
  predicate Counted(fact: Fact) { fact.Fact? && fact.device >= 0 && fact.available >= 0 }

  function Observed(requirements: seq<Requirement>, host: Path -> Fact): (rows: seq<Row>)
    ensures |rows| == |requirements|
    ensures forall i :: 0 <= i < |rows| ==> rows[i] == Row(requirements[i], host(requirements[i].path))
  {
    seq(|requirements|, i requires 0 <= i < |requirements| => Row(requirements[i], host(requirements[i].path)))
  }

  /** What all counted paths on the device require together, valid or not. */
  function Claimed(rows: seq<Row>, device: int): nat {
    if rows == [] then 0
    else
      var n := |rows| - 1;
      Claimed(rows[..n], device)
      + if Counted(rows[n].fact) && rows[n].fact.device == device then rows[n].requirement.required else 0
  }

  /** The fact as the wrapper reports it. */
  function Raised(rows: seq<Row>, fact: Fact): Fact {
    if Counted(fact) && fact.available < Claimed(rows, fact.device)
    then fact.(available := Claimed(rows, fact.device))
    else fact
  }

  predicate AnyRaises(rows: seq<Row>) {
    exists i :: 0 <= i < |rows| && rows[i].fact.Raises?
  }

  /** The rows a preflight sees through the wrapper; one path that cannot be inspected hides all of them. */
  function Fixture(rows: seq<Row>): (r: seq<Row>)
    ensures |r| == |rows|
  {
    seq(|rows|, i requires 0 <= i < |rows| =>
      Row(rows[i].requirement, if AnyRaises(rows) then Raises else Raised(rows, rows[i].fact)))
  }

  lemma RaisedSound(rows: seq<Row>, row: Row)
    ensures Sound(Row(row.requirement, Raised(rows, row.fact))) <==> Sound(row)
  {}

  lemma {:induction false} DemandClaimed(rows: seq<Row>, seen: seq<Row>, device: int)
    requires |rows| == |seen|
    requires forall i :: 0 <= i < |rows| ==> seen[i].requirement == rows[i].requirement
    requires forall i :: 0 <= i < |rows| && On(seen[i], device) ==> Counted(rows[i].fact) && rows[i].fact.device == device
    ensures Demand(seen, device) <= Claimed(rows, device)
  {
    if rows != [] {
      var n := |rows| - 1;
      DemandClaimed(rows[..n], seen[..n], device);
    }
  }

  /** Through the wrapper the storage checks pass exactly when every path fact is valid: capacity alone is set aside. */
  lemma FixtureIgnoresOnlyCapacity(rows: seq<Row>)
    ensures Fits(Fixture(rows)) <==> forall i :: 0 <= i < |rows| ==> Sound(rows[i])
  {
    var seen := Fixture(rows);
    forall i | 0 <= i < |rows| ensures !AnyRaises(rows) ==> (Sound(seen[i]) <==> Sound(rows[i])) {
      RaisedSound(rows, rows[i]);
    }
    if forall i :: 0 <= i < |rows| ==> Sound(rows[i]) {
      assert !AnyRaises(rows);
      forall i | 0 <= i < |rows| ensures Sound(seen[i]) && Demand(seen, seen[i].fact.device) <= seen[i].fact.available {
        DemandClaimed(rows, seen, rows[i].fact.device);
      }
    } else {
      var i :| 0 <= i < |rows| && !Sound(rows[i]);
      assert !Sound(seen[i]);
    }
  }

  /** Every path with a device and an availability adds what it requires to the sum of its device, valid or not. */
  lemma ClaimedSnoc(rows: seq<Row>, row: Row, device: int)
    ensures Claimed([], device) == 0
    ensures Claimed(rows + [row], device) ==
            Claimed(rows, device)
            + if row.fact.Fact? && row.fact.device == device && device >= 0 && row.fact.available >= 0
              then row.requirement.required else 0
  {
    assert (rows + [row])[..|rows|] == rows;
  }

  /** A fact seen through the wrapper is the host's, except that it offers at least the sum of its device. */
  lemma FixtureFact(rows: seq<Row>, i: nat)
    requires i < |rows|
    ensures Fixture(rows)[i].requirement == rows[i].requirement
    ensures (exists k :: 0 <= k < |rows| && rows[k].fact == Raises) ==> Fixture(rows)[i].fact == Raises
    ensures (forall k :: 0 <= k < |rows| ==> rows[k].fact != Raises) ==>
              var seen, fact := Fixture(rows)[i].fact, rows[i].fact;
              if fact.Fact? && fact.device >= 0 && fact.available >= 0 then
                && seen.Fact? && seen.directory == fact.directory && seen.owner == fact.owner && seen.mode == fact.mode
                && seen.device == fact.device && seen.available >= fact.available
                && seen.available >= Claimed(rows, fact.device)
                && (seen.available == fact.available || seen.available == Claimed(rows, fact.device))
              else seen == fact
  {
    if k :| 0 <= k < |rows| && rows[k].fact == Raises {
      assert AnyRaises(rows);
    }
    if AnyRaises(rows) {
      var k :| 0 <= k < |rows| && rows[k].fact.Raises?;
      assert rows[k].fact == Raises;
    }
  }

  ghost predicate DistinctPaths(requirements: seq<Requirement>) {
    forall i, j :: 0 <= i < j < |requirements| ==> requirements[i].path != requirements[j].path
  }

  class AcceptanceFacts {
    const requirements: seq<Requirement>
    const host: Path -> Fact
    /** The facts of every required path, once loaded. */
    var facts: Option<map<Path, Fact>>

    ghost predicate Valid()
      reads this
    {
      DistinctPaths(requirements) && (facts.Some? ==> Loaded(requirements, host, facts.value))
    }

    constructor (requirements: seq<Requirement>, host: Path -> Fact)
      requires DistinctPaths(requirements)
      ensures Valid() && this.requirements == requirements && this.host == host && facts.None?
    {
      this.requirements, this.host, facts := requirements, host, None;
    }

    /** `_load`: all paths are inspected together, and nothing is kept when one of them cannot be. */
    method Load() returns (ok: bool)
      requires Valid()
      modifies this
      ensures Valid()
      ensures ok <==> facts.Some?
      ensures ok <==> !AnyRaises(Observed(requirements, host)) || old(facts).Some?
    {
      if facts.Some? {
        return true;
      }
      var rows: seq<Row> := [];
      ghost var all := Observed(requirements, host);
      for i := 0 to |requirements|
        invariant rows == all[..i] && !AnyRaises(rows)
      {
        var fact := host(requirements[i].path);
        if fact.Raises? {
          assert all[i].fact.Raises?;
          return false;
        }
        rows := rows + [Row(requirements[i], fact)];
      }
      assert rows == all;
      var required := Sums(rows);
      var loaded: map<Path, Fact> := map[];
      for i := 0 to |rows|
        invariant forall k :: 0 <= k < i ==>
                    requirements[k].path in loaded && loaded[requirements[k].path] == Raised(rows, rows[k].fact)
        invariant loaded.Keys == set k | 0 <= k < i :: requirements[k].path
      {
        var fact := rows[i].fact;
        if fact.Fact? && fact.device in required && fact.available >= 0 && fact.available < required[fact.device] {
          fact := fact.(available := required[fact.device]);
        }
        loaded := loaded[rows[i].requirement.path := fact];
      }
      facts := Some(loaded);
      return true;
    }

    /** `inspect`: `Raises` for a path outside the requirements or when loading failed. */
    method Inspect(path: Path) returns (fact: Fact)
      requires Valid()
      modifies this
      ensures Valid()
      ensures forall i :: 0 <= i < |requirements| && requirements[i].path == path ==>
                fact == Fixture(Observed(requirements, host))[i].fact
      ensures (forall i :: 0 <= i < |requirements| ==> requirements[i].path != path) ==> fact == Raises
    {
      var known := exists i :: 0 <= i < |requirements| && requirements[i].path == path;
      if !known {
        return Raises;
      }
      var ok := Load();
      if !ok {
        return Raises;
      }
      return facts.value[path];
    }
  }

  ghost predicate Loaded(requirements: seq<Requirement>, host: Path -> Fact, facts: map<Path, Fact>) {
    var rows := Observed(requirements, host);
    && !AnyRaises(rows)
    && forall k :: 0 <= k < |requirements| ==>
         requirements[k].path in facts && facts[requirements[k].path] == Raised(rows, rows[k].fact)
  }

  /** The first loop over the facts: the requirements of every device added up. */
  method Sums(rows: seq<Row>) returns (required: map<int, nat>)
    ensures forall d :: d in required <==> exists i :: 0 <= i < |rows| && Counted(rows[i].fact) && rows[i].fact.device == d
    ensures forall d :: d in required ==> required[d] == Claimed(rows, d)
  {
    required := map[];
    for i := 0 to |rows|
      invariant forall d :: d in required <==> exists k :: 0 <= k < i && Counted(rows[k].fact) && rows[k].fact.device == d
      invariant forall d :: Claimed(rows[..i], d) == if d in required then required[d] else 0
    {
      assert rows[..i + 1][..i] == rows[..i];
      var fact := rows[i].fact;
      if Counted(fact) {
        var soFar := if fact.device in required then required[fact.device] else 0;
        required := required[fact.device := soFar + rows[i].requirement.required];
      }
    }
    assert rows[..|rows|] == rows;
  }

  /** The storage checks of a preflight that inspects its paths through the wrapper. */
  method AcceptanceCheck(planner: Planner, requirements: seq<Requirement>, host: Path -> Fact) returns (r: Option<bool>)
    ensures r.None? <==>
              || !(1 <= |requirements| <= 64) || !DistinctPaths(requirements)
              || exists i :: 0 <= i < |requirements| && requirements[i].required > 1048576
    ensures r.Some? ==>
              (r.value <==> forall i :: 0 <= i < |requirements| ==> Sound(Row(requirements[i], host(requirements[i].path))))
  {
    if !(1 <= |requirements| <= MAX_REQUIREMENTS) {
      return None;
    }
    for i := 0 to |requirements|
      invariant DistinctPaths(requirements[..i])
      invariant forall k :: 0 <= k < i ==> requirements[k].required <= MAX_REQUIRED
    {
      var repeated := exists k :: 0 <= k < i && requirements[k].path == requirements[i].path;
      if repeated || requirements[i].required > MAX_REQUIRED {
        return None;
      }
    }
    assert requirements[..|requirements|] == requirements;
    var wrapper := new AcceptanceFacts(requirements, host);
    ghost var all := Observed(requirements, host);
    var rows: seq<Row> := [];
    for i := 0 to |requirements|
      invariant wrapper.Valid() && rows == Fixture(all)[..i]
    {
      var fact := wrapper.Inspect(requirements[i].path);
      rows := rows + [Row(requirements[i], fact)];
    }
    assert rows == Fixture(all);
    FixtureIgnoresOnlyCapacity(all);
    var _, ready := Check(planner, rows);
    return Some(ready);
  }
}
