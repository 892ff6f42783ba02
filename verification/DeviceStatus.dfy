/** The device status list of a claim: what one report or removal does to it. */
module DeviceStatus {
  import opened Text

  /** A share that is absent differs from one that is empty. */
  datatype DeviceKey = DeviceKey(driver: string, pool: string, device: string, share: Option<string>)

  datatype Condition = Condition(kind: string, ready: bool, generation: int, since: nat, reason: string, message: string)

  datatype Status = Status(key: DeviceKey, conditions: seq<Condition>, data: string)

  /** What a node reports about one device of a claim; `data` stands for the rest of the entry. */
  datatype Report = Report(uid: string, key: DeviceKey, ready: bool, reason: string, message: string, data: string)

  /** A write to the list, with what it took from the claim and the clock. */
  datatype Op = Put(report: Report, generation: int, now: nat) | Clear(driver: string) {
    function Driver(): string {
      if Put? then report.key.driver else driver
    }
  }

  // ---------------------------------------------------------------- one write

  /** The Ready condition set; its transition time moves only when its value does. */
  function SetReady(conditions: seq<Condition>, report: Report, generation: int, now: nat): seq<Condition> {
    if conditions == [] then
      [Condition("Ready", report.ready, generation, now, report.reason, report.message)]
    else if conditions[0].kind == "Ready" then
      var since := if conditions[0].ready == report.ready then conditions[0].since else now;
      [Condition("Ready", report.ready, generation, since, report.reason, report.message)] + conditions[1..]
    else
      [conditions[0]] + SetReady(conditions[1..], report, generation, now)
  }

  /** The first entry with this key. */
  function Find(devices: seq<Status>, key: DeviceKey): Option<Status> {
    if devices == [] then None
    else if devices[0].key == key then Some(devices[0])
    else Find(devices[1..], key)
  }

  function ConditionsOf(devices: seq<Status>, key: DeviceKey): seq<Condition> {
    var found := Find(devices, key);
    if found.Some? then found.value.conditions else []
  }

  /** allocatedDeviceStatus: the entry's other conditions are kept. */
  function Entry(devices: seq<Status>, report: Report, generation: int, now: nat): Status {
    Status(report.key, SetReady(ConditionsOf(devices, report.key), report, generation, now), report.data)
  }

  function Upsert(devices: seq<Status>, s: Status): seq<Status> {
    if devices == [] then [s]
    else if devices[0].key == s.key then [s] + devices[1..]
    else [devices[0]] + Upsert(devices[1..], s)
  }

  function Without(devices: seq<Status>, driver: string): seq<Status> {
    if devices == [] then []
    else if devices[0].key.driver == driver then Without(devices[1..], driver)
    else [devices[0]] + Without(devices[1..], driver)
  }

  function Apply(op: Op, devices: seq<Status>): seq<Status> {
    match op
    case Put(report, generation, now) => Upsert(devices, Entry(devices, report, generation, now))
    case Clear(driver) => Without(devices, driver)
  }

  /** The list after these writes, one at a time. */
  function Fold(ops: seq<Op>): seq<Status> {
    if ops == [] then [] else Apply(ops[|ops| - 1], Fold(ops[..|ops| - 1]))
  }

  // ---------------------------------------------------------------- the loops

  /** The replace-or-append loop of setResourceClaimDeviceStatus. */
  method MergeStatus(devices: seq<Status>, status: Status) returns (merged: seq<Status>)
    ensures merged == Upsert(devices, status)
  {
    merged := devices;
    var replaced := false;
    for i := 0 to |devices|
      invariant merged == devices && !replaced
      invariant Upsert(devices, status) == devices[..i] + Upsert(devices[i..], status)
    {
      if merged[i].key == status.key {
        merged := merged[i := status];
        replaced := true;
        assert merged == devices[..i] + ([status] + devices[i..][1..]);
        break;
      }
      PassedBy(devices, status, i);
    }
    if !replaced {
      merged := merged + [status];
    }
  }

  lemma PassedBy(devices: seq<Status>, status: Status, i: nat)
    requires i < |devices| && devices[i].key != status.key
    ensures devices[..i] + Upsert(devices[i..], status) == devices[..i + 1] + Upsert(devices[i + 1..], status)
  {
    assert devices[i..][1..] == devices[i + 1..];
    assert devices[..i + 1] == devices[..i] + [devices[i]];
  }

  lemma {:induction false} WithoutSplits(a: seq<Status>, b: seq<Status>, driver: string)
    ensures Without(a + b, driver) == Without(a, driver) + Without(b, driver)
    ensures |Without(a, driver)| <= |a|
  {
    if a == [] {
      assert a + b == b;
    } else {
      WithoutSplits(a[1..], b, driver);
      assert (a + b)[1..] == a[1..] + b;
    }
  }

  /** The filter of removeResourceClaimDeviceStatus, which writes the kept entries over the list it reads. */
  method RemoveInPlace(devices: array<Status>, driver: string) returns (n: nat)
    modifies devices
    ensures n <= devices.Length && devices[..n] == Without(old(devices[..]), driver)
  {
    n := 0;
    ghost var all := devices[..];
    for i := 0 to devices.Length
      invariant n <= i
      invariant devices[..n] == Without(all[..i], driver)
      invariant devices[i..] == all[i..]
    {
      var status := devices[i];
      assert status == devices[i..][0] == all[i];
      assert all[..i + 1] == all[..i] + [status];
      WithoutSplits(all[..i], [status], driver);
      if status.key.driver != driver {
        ghost var kept := devices[..n];
        devices[n] := status;
        n := n + 1;
        assert devices[..n] == kept + [status];
      }
      assert devices[i + 1..] == all[i..][1..];
    }
    assert all[..devices.Length] == all;
  }

  // ---------------------------------------------------------------- what the writes mean

  predicate KeysDistinct(devices: seq<Status>) {
    devices == [] || (Find(devices[1..], devices[0].key).None? && KeysDistinct(devices[1..]))
  }

  lemma {:induction false} FindNone(devices: seq<Status>, key: DeviceKey)
    ensures Find(devices, key).None? <==> forall i :: 0 <= i < |devices| ==> devices[i].key != key
  {
    if devices != [] {
      FindNone(devices[1..], key);
      assert devices == [devices[0]] + devices[1..];
    }
  }

  lemma {:induction false} DistinctEverywhere(devices: seq<Status>, i: nat, j: nat)
    requires KeysDistinct(devices) && i < j < |devices|
    ensures devices[i].key != devices[j].key
  {
    FindNone(devices[1..], devices[0].key);
    if i > 0 {
      DistinctEverywhere(devices[1..], i - 1, j - 1);
    } else {
      assert devices[1..][j - 1] == devices[j];
    }
  }

  /** On keys, an upsert is a map update. */
  lemma {:induction false} UpsertFind(devices: seq<Status>, s: Status, key: DeviceKey)
    ensures Find(Upsert(devices, s), key) == if key == s.key then Some(s) else Find(devices, key)
  {
    if devices == [] {
      assert Upsert(devices, s)[1..] == [];
    } else {
      UpsertFind(devices[1..], s, key);
      assert Upsert(devices, s)[1..] == if devices[0].key == s.key then devices[1..] else Upsert(devices[1..], s);
    }
  }

  lemma {:induction false} UpsertDistinct(devices: seq<Status>, s: Status)
    requires KeysDistinct(devices)
    ensures KeysDistinct(Upsert(devices, s))
  {
    if devices == [] {
      assert Upsert(devices, s)[1..] == [];
    } else {
      UpsertDistinct(devices[1..], s);
      UpsertFind(devices[1..], s, devices[0].key);
      assert Upsert(devices, s)[1..] == if devices[0].key == s.key then devices[1..] else Upsert(devices[1..], s);
    }
  }

  /** On keys, a removal takes away the driver's and nothing else. */
  lemma {:induction false} WithoutFind(devices: seq<Status>, driver: string, key: DeviceKey)
    ensures Find(Without(devices, driver), key) == if key.driver == driver then None else Find(devices, key)
  {
    if devices != [] {
      WithoutFind(devices[1..], driver, key);
      assert devices[0].key.driver != driver ==> Without(devices, driver)[1..] == Without(devices[1..], driver);
    }
  }

  lemma {:induction false} WithoutDistinct(devices: seq<Status>, driver: string)
    requires KeysDistinct(devices)
    ensures KeysDistinct(Without(devices, driver))
  {
    if devices != [] {
      WithoutDistinct(devices[1..], driver);
      WithoutFind(devices[1..], driver, devices[0].key);
      assert devices[0].key.driver != driver ==> Without(devices, driver)[1..] == Without(devices[1..], driver);
    }
  }

  /** Whatever was written, no key occurs twice. */
  lemma {:induction false} FoldDistinct(ops: seq<Op>)
    ensures KeysDistinct(Fold(ops))
  {
    if ops != [] {
      var before := Fold(ops[..|ops| - 1]);
      FoldDistinct(ops[..|ops| - 1]);
      match ops[|ops| - 1]
      case Put(report, generation, now) => UpsertDistinct(before, Entry(before, report, generation, now));
      case Clear(driver) => WithoutDistinct(before, driver);
    }
  }

  // ---------------------------------------------------------------- conditions

  /** The first condition of this kind. */
  function FindCondition(conditions: seq<Condition>, kind: string): Option<Condition> {
    if conditions == [] then None
    else if conditions[0].kind == kind then Some(conditions[0])
    else FindCondition(conditions[1..], kind)
  }

  /** A report replaces the Ready condition and no other; it stays as old as its value. */
  lemma {:induction false} ReadyIsSet(conditions: seq<Condition>, report: Report, generation: int, now: nat, kind: string)
    ensures var after := SetReady(conditions, report, generation, now);
            var was := FindCondition(conditions, "Ready");
            && (kind != "Ready" ==> FindCondition(after, kind) == FindCondition(conditions, kind))
            && FindCondition(after, "Ready").Some?
            && var ready := FindCondition(after, "Ready").value;
               && ready.kind == "Ready" && ready.ready == report.ready && ready.generation == generation
               && ready.reason == report.reason && ready.message == report.message
               && ready.since == if was.Some? && was.value.ready == report.ready then was.value.since else now
  {
    var after := SetReady(conditions, report, generation, now);
    if conditions == [] {
      assert after[1..] == [];
    } else if conditions[0].kind == "Ready" {
      assert after[1..] == conditions[1..];
    } else {
      ReadyIsSet(conditions[1..], report, generation, now, kind);
      assert after[1..] == SetReady(conditions[1..], report, generation, now);
    }
  }

  /** A report leaves the entry of its device with its data, every other condition that was there and no more, and
      the Ready condition it reports, as old as its value. */
  ghost predicate Reported(devices: seq<Status>, devices': seq<Status>, report: Report, generation: int, now: nat, kind: string) {
    var was, after := Find(devices, report.key), Find(devices', report.key);
    && after.Some? && after.value.data == report.data
    && (kind != "Ready" ==>
          FindCondition(after.value.conditions, kind) == if was.Some? then FindCondition(was.value.conditions, kind) else None)
    && var before := if was.Some? then FindCondition(was.value.conditions, "Ready") else None;
       var since := if before.Some? && before.value.ready == report.ready then before.value.since else now;
       FindCondition(after.value.conditions, "Ready")
       == Some(Condition("Ready", report.ready, generation, since, report.reason, report.message))
  }

  lemma PutKeepsConditions(devices: seq<Status>, report: Report, generation: int, now: nat, kind: string)
    ensures Reported(devices, Apply(Put(report, generation, now), devices), report, generation, now, kind)
  {
    UpsertFind(devices, Entry(devices, report, generation, now), report.key);
    ReadyIsSet(ConditionsOf(devices, report.key), report, generation, now, kind);
  }

  // ---------------------------------------------------------------- drivers do not meet

  function OfDriver(devices: seq<Status>, driver: string): seq<Status> {
    if devices == [] then []
    else if devices[0].key.driver == driver then [devices[0]] + OfDriver(devices[1..], driver)
    else OfDriver(devices[1..], driver)
  }

  function OpsOf(ops: seq<Op>, driver: string): seq<Op> {
    if ops == [] then []
    else if ops[|ops| - 1].Driver() == driver then OpsOf(ops[..|ops| - 1], driver) + [ops[|ops| - 1]]
    else OpsOf(ops[..|ops| - 1], driver)
  }

  lemma {:induction false} FindOfDriver(devices: seq<Status>, key: DeviceKey)
    ensures Find(OfDriver(devices, key.driver), key) == Find(devices, key)
  {
    if devices != [] {
      FindOfDriver(devices[1..], key);
      if devices[0].key.driver == key.driver {
        assert OfDriver(devices, key.driver)[1..] == OfDriver(devices[1..], key.driver);
      }
    }
  }

  lemma {:induction false} UpsertOfDriver(devices: seq<Status>, s: Status, driver: string)
    ensures OfDriver(Upsert(devices, s), driver)
            == if s.key.driver == driver then Upsert(OfDriver(devices, driver), s) else OfDriver(devices, driver)
  {
    if devices == [] {
      assert Upsert(devices, s)[1..] == [];
    } else {
      UpsertOfDriver(devices[1..], s, driver);
      if devices[0].key == s.key {
        assert Upsert(devices, s)[1..] == devices[1..];
      } else {
        assert Upsert(devices, s)[1..] == Upsert(devices[1..], s);
      }
      if devices[0].key.driver == driver {
        assert OfDriver(devices, driver)[1..] == OfDriver(devices[1..], driver);
      }
    }
  }

  lemma {:induction false} WithoutOfDriver(devices: seq<Status>, cleared: string, driver: string)
    ensures OfDriver(Without(devices, cleared), driver) == if cleared == driver then [] else OfDriver(devices, driver)
    ensures Without(OfDriver(devices, driver), driver) == []
  {
    if devices != [] {
      WithoutOfDriver(devices[1..], cleared, driver);
      if devices[0].key.driver != cleared {
        assert Without(devices, cleared)[1..] == Without(devices[1..], cleared);
      }
      if devices[0].key.driver == driver {
        assert OfDriver(devices, driver)[1..] == OfDriver(devices[1..], driver);
      }
    }
  }

  /** A driver's entries, in their order, are what its own writes alone make of them. */
  lemma {:induction false} DriversApart(ops: seq<Op>, driver: string)
    ensures OfDriver(Fold(ops), driver) == Fold(OpsOf(ops, driver))
  {
    if ops != [] {
      var last, before := ops[|ops| - 1], Fold(ops[..|ops| - 1]);
      DriversApart(ops[..|ops| - 1], driver);
      if last.Driver() == driver {
        assert OpsOf(ops, driver)[..|OpsOf(ops, driver)| - 1] == OpsOf(ops[..|ops| - 1], driver);
      }
      match last
      case Put(report, generation, now) =>
        UpsertOfDriver(before, Entry(before, report, generation, now), driver);
        FindOfDriver(before, report.key);
      case Clear(cleared) =>
        WithoutOfDriver(before, cleared, driver);
    }
  }
}
