/** The storage checks of the two preflights, with capacity added up per device. */
module StoragePreflight {
  type Path = string

  datatype Requirement = Requirement(path: Path, owner: int, required: nat, private: bool)

  /** What the host reports of a path; inspecting it may raise, or return something of the wrong shape. */
  datatype Fact = Raises | Malformed | Fact(directory: bool, owner: int, mode: int, device: int, available: int)

  datatype Row = Row(requirement: Requirement, fact: Fact)

  /** The deployment bundle and the unified package check the same facts in a different order. */
  datatype Planner = Bundle | Package

  datatype Code = Verified | Invalid | OwnerInvalid | PermissionsInvalid | CapacityInsufficient

  /** `mode & 0o022` */
  predicate WritableByOthers(mode: nat) { (mode / 2) % 2 == 1 || (mode / 16) % 2 == 1 }

  /** `mode & 0o077` */
  predicate OpenToOthers(mode: nat) { mode % 64 != 0 }

  /** The single-path verdict, before capacity. */
  function Examine(planner: Planner, row: Row): Code {
    var r, f := row.requirement, row.fact;
    if !f.Fact? then Invalid
    else match planner
      case Bundle =>
        if !f.directory || f.owner != r.owner then Invalid
        else if f.mode < 0 || f.mode > 0xfff || WritableByOthers(f.mode) then PermissionsInvalid
        else if r.private && OpenToOthers(f.mode) then PermissionsInvalid
        else if f.device < 0 || f.available < 0 then Invalid
        else Verified
      case Package =>
        if !f.directory || f.mode < 0 || f.mode > 0xfff || f.device < 0 || f.available < 0 then Invalid
        else if f.owner != r.owner then OwnerInvalid
        else if WritableByOthers(f.mode) || (r.private && OpenToOthers(f.mode)) then PermissionsInvalid
        else Verified
  }

  /** The path fact is valid for its requirement. */
  predicate Sound(row: Row) {
    && row.fact.Fact? && row.fact.directory && row.fact.owner == row.requirement.owner
    && 0 <= row.fact.mode <= 0xfff && !WritableByOthers(row.fact.mode)
    && (row.requirement.private ==> !OpenToOthers(row.fact.mode))
    && row.fact.device >= 0 && row.fact.available >= 0
  }

  lemma ExamineSound(planner: Planner, row: Row)
    ensures Examine(planner, row) == Verified <==> Sound(row)
  {}

  predicate On(row: Row, device: int) {
    Sound(row) && row.fact.device == device
  }

  /** The MiB that valid paths on the device require together. */
  function Demand(rows: seq<Row>, device: int): nat {
    if rows == [] then 0
    else
      var n := |rows| - 1;
      Demand(rows[..n], device) + if On(rows[n], device) then rows[n].requirement.required else 0
  }

  /** Some path on the device reports less than the device has to hold. */
  ghost predicate Short(rows: seq<Row>, device: int) {
    exists j :: 0 <= j < |rows| && On(rows[j], device) && rows[j].fact.available < Demand(rows, device)
  }

  ghost function Final(planner: Planner, rows: seq<Row>, i: nat): Code
    requires i < |rows|
  {
    var code := Examine(planner, rows[i]);
    if code == Verified && Short(rows, rows[i].fact.device) then CapacityInsufficient else code
  }

  /** Every path fact is valid, and on each device the sum of what is required is at most every reported availability. */
  ghost predicate Fits(rows: seq<Row>) {
    && (forall i :: 0 <= i < |rows| ==> Sound(rows[i]))
    && (forall i :: 0 <= i < |rows| ==> Demand(rows, rows[i].fact.device) <= rows[i].fact.available)
  }

  lemma FitsMeansFinal(planner: Planner, rows: seq<Row>)
    ensures Fits(rows) <==> forall i :: 0 <= i < |rows| ==> Final(planner, rows, i) == Verified
  {
    forall i | 0 <= i < |rows| ensures Examine(planner, rows[i]) == Verified <==> Sound(rows[i]) {
      ExamineSound(planner, rows[i]);
    }
    if forall i :: 0 <= i < |rows| ==> Final(planner, rows, i) == Verified {
      forall i | 0 <= i < |rows| ensures Sound(rows[i]) && Demand(rows, rows[i].fact.device) <= rows[i].fact.available {
        assert Final(planner, rows, i) == Verified;
        assert On(rows[i], rows[i].fact.device);
      }
    }
  }

  // ---------------------------------------------------------------- the checks

  datatype Device = Device(available: int, required: nat, indexes: seq<nat>)

  /** The record of one device after some rows. */
  ghost predicate Tracks(rows: seq<Row>, device: int, d: Device) {
    && d.required == Demand(rows, device)
    && (forall j :: j in d.indexes <==> 0 <= j < |rows| && On(rows[j], device))
    && (forall j :: 0 <= j < |rows| && On(rows[j], device) ==> d.available <= rows[j].fact.available)
    && (exists j :: 0 <= j < |rows| && On(rows[j], device) && d.available == rows[j].fact.available)
  }

  ghost predicate AllTracked(rows: seq<Row>, devices: map<int, Device>) {
    && (forall d :: d in devices ==> Tracks(rows, d, devices[d]))
    && (forall j :: 0 <= j < |rows| && Sound(rows[j]) ==> rows[j].fact.device in devices)
  }

  lemma {:induction false} NoDemand(rows: seq<Row>, device: int)
    requires forall j :: 0 <= j < |rows| ==> !On(rows[j], device)
    ensures Demand(rows, device) == 0
  {
    if rows != [] {
      NoDemand(rows[..|rows| - 1], device);
    }
  }

  function Noted(devices: map<int, Device>, row: Row, index: nat): map<int, Device>
    requires row.fact.Fact?
  {
    var known := if row.fact.device in devices then devices[row.fact.device] else Device(row.fact.available, 0, []);
    devices[row.fact.device := Device(if row.fact.available < known.available then row.fact.available else known.available,
                                      known.required + row.requirement.required, known.indexes + [index])]
  }

  lemma TracksSame(rows: seq<Row>, row: Row, device: int, d: Device)
    requires Tracks(rows, device, d) && !On(row, device)
    ensures Tracks(rows + [row], device, d)
  {
    var more := rows + [row];
    assert more[..|rows|] == rows;
    var j :| 0 <= j < |rows| && On(rows[j], device) && d.available == rows[j].fact.available;
    assert more[j] == rows[j];
  }

  lemma TracksNew(rows: seq<Row>, row: Row, devices: map<int, Device>)
    requires AllTracked(rows, devices) && Sound(row)
    ensures Tracks(rows + [row], row.fact.device, Noted(devices, row, |rows|)[row.fact.device])
  {
    var more, device := rows + [row], row.fact.device;
    var d := Noted(devices, row, |rows|)[device];
    assert more[..|rows|] == rows && more[|rows|] == row;
    if device in devices {
      assert Tracks(rows, device, devices[device]);
      var j :| 0 <= j < |rows| && On(rows[j], device) && devices[device].available == rows[j].fact.available;
      assert more[j] == rows[j];
    } else {
      forall j | 0 <= j < |rows| ensures !On(rows[j], device) {}
      NoDemand(rows, device);
    }
    assert On(more[|rows|], device);
  }

  lemma NotedTracks(rows: seq<Row>, row: Row, devices: map<int, Device>)
    requires AllTracked(rows, devices)
    ensures AllTracked(rows + [row], if Sound(row) then Noted(devices, row, |rows|) else devices)
  {
    var next := if Sound(row) then Noted(devices, row, |rows|) else devices;
    forall d | d in next ensures Tracks(rows + [row], d, next[d]) {
      if On(row, d) {
        TracksNew(rows, row, devices);
      } else {
        TracksSame(rows, row, d, devices[d]);
      }
    }
  }

  /** The storage part of both `preflight` methods. */
  method Check(planner: Planner, rows: seq<Row>) returns (checks: seq<Code>, ready: bool)
    ensures |checks| == |rows| && forall i :: 0 <= i < |rows| ==> checks[i] == Final(planner, rows, i)
    ensures ready <==> Fits(rows)
  {
    var devices: map<int, Device> := map[];
    checks := [];
    for i := 0 to |rows|
      invariant |checks| == i && forall k :: 0 <= k < i ==> checks[k] == Examine(planner, rows[k])
      invariant AllTracked(rows[..i], devices)
    {
      var code := Examine(planner, rows[i]);
      ExamineSound(planner, rows[i]);
      NotedTracks(rows[..i], rows[i], devices);
      assert rows[..i + 1] == rows[..i] + [rows[i]];
      if code == Verified {
        devices := Noted(devices, rows[i], i);
      }
      checks := checks + [code];
    }
    assert rows[..|rows|] == rows;
    checks := Overcommit(planner, rows, checks, devices);
    FitsMeansFinal(planner, rows);
    ready := forall i :: 0 <= i < |checks| ==> checks[i] == Verified;
  }

  /** The row's device is among those already compared with their demand. */
  ghost predicate Settled(row: Row, left: set<int>) {
    !(Sound(row) && row.fact.device in left)
  }

  lemma Inhabited(s: set<int>)
    ensures s != {} ==> exists d :: d in s
  {
    if forall d :: d !in s {
      assert s == {};
    }
  }

  /** The last loop: the checks of every device that is short fail. */
  method Overcommit(planner: Planner, rows: seq<Row>, before: seq<Code>, devices: map<int, Device>) returns (checks: seq<Code>)
    requires |before| == |rows| && AllTracked(rows, devices)
    requires forall k :: 0 <= k < |rows| ==> before[k] == Examine(planner, rows[k])
    ensures |checks| == |rows| && forall i :: 0 <= i < |rows| ==> checks[i] == Final(planner, rows, i)
  {
    checks := before;
    forall k | 0 <= k < |rows| ensures Examine(planner, rows[k]) == Verified <==> Sound(rows[k]) {
      ExamineSound(planner, rows[k]);
    }
    var left := devices.Keys;
    while left != {}
      invariant left <= devices.Keys && |checks| == |rows|
      invariant forall k :: 0 <= k < |rows| ==>
                  checks[k] == if Settled(rows[k], left) then Final(planner, rows, k) else Examine(planner, rows[k])
    {
      Inhabited(left);
      var d :| d in left;
      assert Tracks(rows, d, devices[d]);
      assert devices[d].available < devices[d].required <==> Short(rows, d);
      ghost var prior := checks;
      if devices[d].available < devices[d].required {
        checks := Failed(checks, devices[d].indexes);
      }
      forall k | 0 <= k < |rows|
        ensures checks[k] == if Settled(rows[k], left - {d}) then Final(planner, rows, k) else Examine(planner, rows[k])
      {
        assert k in devices[d].indexes <==> On(rows[k], d);
      }
      left := left - {d};
    }
  }

  method Failed(before: seq<Code>, indexes: seq<nat>) returns (checks: seq<Code>)
    requires forall j :: j in indexes ==> j < |before|
    ensures |checks| == |before|
    ensures forall k :: 0 <= k < |before| ==> checks[k] == if k in indexes then CapacityInsufficient else before[k]
  {
    checks := before;
    for i := 0 to |indexes|
      invariant |checks| == |before|
      invariant forall k :: 0 <= k < |before| ==> checks[k] == if k in indexes[..i] then CapacityInsufficient else before[k]
    {
      assert indexes[i] in indexes;
      checks := checks[indexes[i] := CapacityInsufficient];
    }
    assert indexes[..|indexes|] == indexes;
  }

  // ---------------------------------------------------------------- order

  lemma {:induction false} DemandConcat(a: seq<Row>, b: seq<Row>, device: int)
    ensures Demand(a + b, device) == Demand(a, device) + Demand(b, device)
  {
    if b == [] {
      assert a + b == a;
    } else {
      var n := |b| - 1;
      DemandConcat(a, b[..n], device);
      assert (a + b)[..|a| + n] == a + b[..n];
    }
  }

  lemma DemandRemove(rows: seq<Row>, device: int, i: nat)
    requires i < |rows|
    ensures Demand(rows, device) == Demand(rows[..i] + rows[i + 1..], device) + Demand([rows[i]], device)
  {
    assert rows == rows[..i] + ([rows[i]] + rows[i + 1..]);
    DemandConcat(rows[..i], [rows[i]] + rows[i + 1..], device);
    DemandConcat([rows[i]], rows[i + 1..], device);
    DemandConcat(rows[..i], rows[i + 1..], device);
  }

  lemma Without(rows: seq<Row>, i: nat)
    requires i < |rows|
    ensures multiset(rows[..i] + rows[i + 1..]) == multiset(rows) - multiset{rows[i]}
  {
    assert rows == rows[..i] + [rows[i]] + rows[i + 1..];
  }

  lemma {:induction false} DemandOrderFree(a: seq<Row>, b: seq<Row>, device: int)
    requires multiset(a) == multiset(b)
    ensures Demand(a, device) == Demand(b, device)
    decreases |a|
  {
    if a == [] {
      assert |multiset(b)| == 0;
    } else {
      var n := |a| - 1;
      assert a[n] in multiset(b);
      var i :| 0 <= i < |b| && b[i] == a[n];
      DemandRemove(a, device, n);
      DemandRemove(b, device, i);
      Without(a, n);
      Without(b, i);
      DemandOrderFree(a[..n] + a[n + 1..], b[..i] + b[i + 1..], device);
    }
  }

  /** The storage verdict does not depend on the order of the requirements. */
  lemma VerdictOrderFree(a: seq<Row>, b: seq<Row>)
    requires multiset(a) == multiset(b)
    ensures Fits(a) <==> Fits(b)
  {
    FitsUnder(a, b);
    FitsUnder(b, a);
  }

  lemma FitsUnder(a: seq<Row>, b: seq<Row>)
    requires multiset(a) == multiset(b)
    ensures Fits(a) ==> Fits(b)
  {
    forall i | 0 <= i < |b| && Fits(a)
      ensures Sound(b[i]) && Demand(b, b[i].fact.device) <= b[i].fact.available
    {
      assert b[i] in multiset(a);
      var j :| 0 <= j < |a| && a[j] == b[i];
      DemandOrderFree(a, b, b[i].fact.device);
    }
  }

  // ---------------------------------------------------------------- the verdicts by their fields

  /** A digit of a mode that lets its class write. */
  ghost predicate MayWrite(digit: int) { digit == 2 || digit == 3 || digit == 6 || digit == 7 }

  /** A mode by its octal digits: group or others may write, or a private path is not closed to both. */
  ghost predicate Loose(mode: nat, private: bool) {
    MayWrite(mode / 8 % 8) || MayWrite(mode % 8) || (private && (mode / 8 % 8 != 0 || mode % 8 != 0))
  }

  lemma Halved(x: nat, n: nat, r: nat)
    requires x == 2 * n + r && r < 2
    ensures x / 2 == n && x % 2 == r
  {}

  /** The second bit of an octal digit lets its class write. */
  lemma WriteBit(high: nat, digit: nat)
    requires digit < 8
    ensures (8 * high + digit) / 2 % 2 == 1 <==> MayWrite(digit)
  {
    var e := if digit < 2 then 0 else if digit < 4 then 1 else if digit < 6 then 2 else 3;
    Halved(8 * high + digit, 4 * high + e, digit - 2 * e);
    if e < 2 {
      Halved(4 * high + e, 2 * high, e);
    } else {
      Halved(4 * high + e, 2 * high + 1, e - 2);
    }
  }

  lemma Digits(mode: nat)
    ensures mode == 8 * (mode / 8) + mode % 8 && mode / 8 == 8 * (mode / 64) + mode / 8 % 8
    ensures mode / 16 == mode / 8 / 2 && mode % 64 == 8 * (mode / 8 % 8) + mode % 8
  {
    var q, r := mode / 8, mode % 8;
    assert mode == 8 * q + r;
    assert q == 2 * (q / 2) + q % 2;
    assert mode == 16 * (q / 2) + (8 * (q % 2) + r);
    assert q == 8 * (q / 8) + q % 8;
    assert mode == 64 * (q / 8) + (8 * (q % 8) + r);
  }

  lemma ModeDigits(mode: nat)
    ensures WritableByOthers(mode) <==> MayWrite(mode / 8 % 8) || MayWrite(mode % 8)
    ensures OpenToOthers(mode) <==> mode / 8 % 8 != 0 || mode % 8 != 0
  {
    Digits(mode);
    WriteBit(mode / 8, mode % 8);
    WriteBit(mode / 64, mode / 8 % 8);
  }

  /** What the bundle planner answers for one path, by the fields of the fact. */
  lemma BundleCodes(r: Requirement, f: Fact)
    requires f.Fact?
    ensures var code := Examine(Bundle, Row(r, f));
            && (code == PermissionsInvalid <==>
                  f.directory && f.owner == r.owner && (f.mode < 0 || f.mode > 4095 || Loose(f.mode, r.private)))
            && (code == Invalid <==>
                  || !f.directory || f.owner != r.owner
                  || (code != PermissionsInvalid && (f.device < 0 || f.available < 0)))
            && code in {Verified, Invalid, PermissionsInvalid}
  {
    if f.mode >= 0 {
      ModeDigits(f.mode);
    }
  }

  /** What the package planner answers for one path, by the fields of the fact. */
  lemma PackageCodes(r: Requirement, f: Fact)
    requires f.Fact?
    ensures var code := Examine(Package, Row(r, f));
            && (code == Invalid <==> !f.directory || f.mode < 0 || f.mode > 4095 || f.device < 0 || f.available < 0)
            && (code == OwnerInvalid <==> code != Invalid && f.owner != r.owner)
            && (code == PermissionsInvalid <==> code != Invalid && f.owner == r.owner && Loose(f.mode, r.private))
            && code != CapacityInsufficient
  {
    if f.mode >= 0 {
      ModeDigits(f.mode);
    }
  }

  /** Which path facts are valid, by the fields of the fact and the digits of its mode. */
  lemma SoundMeans(r: Requirement, f: Fact)
    ensures Sound(Row(r, f)) <==>
            && f.Fact? && f.directory && f.owner == r.owner && 0 <= f.mode <= 4095 && !Loose(f.mode, r.private)
            && f.device >= 0 && f.available >= 0
  {
    if f.Fact? && f.mode >= 0 {
      ModeDigits(f.mode);
    }
  }

  /** Each valid path adds what it requires to its own device and nothing to any other. */
  lemma DemandSnoc(rows: seq<Row>, row: Row, device: int)
    ensures Demand([], device) == 0
    ensures Demand(rows + [row], device) ==
            Demand(rows, device) + if Sound(row) && row.fact.device == device then row.requirement.required else 0
  {
    assert (rows + [row])[..|rows|] == rows;
  }
}
