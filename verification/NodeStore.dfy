/** The driver's node-local store: device records by pod and key, and IP reservations by claim. */
module NodeStore {
  import opened Text

  /** An address on a link, with everything that is saved and restored. */
  datatype Address = Address(cidr: string, ifLabel: string, flags: int, scope: int, peer: string, broadcast: string,
                             preferredLifetime: int, validLifetime: int)

  /** What is remembered of a NIC while a claim has it. The store and every copy of a
      device record share this one object, so a change of the flag is seen by all. */
  class HostDeviceState {
    const originalName: string
    const originalAdminUp: bool
    const originalMTU: int
    const originalMAC: string
    const originalAddresses: seq<string>
    const addressState: seq<Address>
    var restored: bool

    constructor (name: string, up: bool, mtu: int, mac: string, cidrs: seq<string>, addresses: seq<Address>)
      ensures originalName == name && originalAdminUp == up && originalMTU == mtu && originalMAC == mac
      ensures originalAddresses == cidrs && addressState == addresses && !restored
    {
      originalName, originalAdminUp, originalMTU, originalMAC := name, up, mtu, mac;
      originalAddresses, addressState, restored := cidrs, addresses, false;
    }
  }

  datatype DeviceConfig = DeviceConfig(
    claimUID: string,
    deviceName: string,
    shareID: Option<string>,
    netType: string,
    interfaceName: string,
    mtu: int,
    addresses: seq<Address>,
    hostDevice: HostDeviceState?,
    attachedIf: string,
    lifecycle: string)

  datatype PodConfig = PodConfig(podUID: string, netNS: string, devices: map<string, DeviceConfig>)

  datatype IPAllocation = IPAllocation(pool: string, address: string, claimUID: string, podUID: string)

  const HOST_DEVICE := "host-device"

  // ---------------------------------------------------------------- keys

  function DeviceStoreKey(claimUID: string, deviceName: string, shareID: Option<string>): string {
    claimUID + ['/'] + deviceName + (if shareID.Some? && shareID.value != "" then ['/'] + shareID.value else "")
  }

  /** A missing share and an empty one count as the same. */
  function Share(shareID: Option<string>): string {
    if shareID.Some? then shareID.value else ""
  }

  lemma TailOfKey(device: string, share: Option<string>, other: string, otherShare: Option<string>)
    requires '/' !in device && '/' !in other
    requires device + (if Share(share) != "" then ['/'] + Share(share) else "")
             == other + (if Share(otherShare) != "" then ['/'] + Share(otherShare) else "")
    ensures device == other && Share(share) == Share(otherShare)
  {
    var tail := if Share(share) != "" then ['/'] + Share(share) else "";
    var otherTail := if Share(otherShare) != "" then ['/'] + Share(otherShare) else "";
    var s := device + tail;
    assert s == other + otherTail;
    assert tail != "" ==> s[|device|] == '/';
    assert otherTail != "" ==> s[|other|] == '/';
    assert !(|device| < |other|) && !(|other| < |device|);
    assert device == s[..|device|] && other == s[..|other|];
    assert tail == s[|device|..] && otherTail == s[|other|..];
    assert tail != "" ==> tail[1..] == Share(share);
    assert otherTail != "" ==> otherTail[1..] == Share(otherShare);
  }

  /** Keys of different (claim, device, share) triples differ when no claim UID or device name contains a slash. */
  lemma StoreKeyInjective(claim: string, device: string, share: Option<string>,
                          claim': string, device': string, share': Option<string>)
    requires '/' !in claim && '/' !in device && '/' !in claim' && '/' !in device'
    ensures DeviceStoreKey(claim, device, share) == DeviceStoreKey(claim', device', share')
            <==> claim == claim' && device == device' && Share(share) == Share(share')
  {
    var tail := device + (if Share(share) != "" then ['/'] + Share(share) else "");
    var tail' := device' + (if Share(share') != "" then ['/'] + Share(share') else "");
    assert DeviceStoreKey(claim, device, share) == claim + ['/'] + tail;
    assert DeviceStoreKey(claim', device', share') == claim' + ['/'] + tail';
    if DeviceStoreKey(claim, device, share) == DeviceStoreKey(claim', device', share') {
      CutAtSeparator(claim, tail, claim', tail', '/');
      TailOfKey(device, share, device', share');
    }
  }

  /** Without that proviso two triples can share a key. */
  lemma SlashMakesKeysCollide()
    ensures DeviceStoreKey("c", "d/e", None) == DeviceStoreKey("c", "d", Some("e"))
  {
  }

  // ---------------------------------------------------------------- migration

  function MigratedKey(oldKey: string, cfg: DeviceConfig): string {
    if cfg.claimUID != "" && cfg.deviceName != "" then DeviceStoreKey(cfg.claimUID, cfg.deviceName, cfg.shareID) else oldKey
  }

  /** Every record of `after` is a record of `before` under its migrated key, and every migrated key is there. */
  ghost predicate Rekeyed(before: map<string, DeviceConfig>, after: map<string, DeviceConfig>) {
    && (forall k :: k in before ==> MigratedKey(k, before[k]) in after)
    && (forall n :: n in after ==> exists k :: k in before && MigratedKey(k, before[k]) == n && before[k] == after[n])
  }

  ghost predicate RekeyedPod(before: PodConfig, after: PodConfig) {
    Rekeyed(before.devices, after.devices) && after.podUID == before.podUID && after.netNS == before.netNS
  }

  ghost predicate RekeyedPods(before: map<string, PodConfig>, after: map<string, PodConfig>) {
    after.Keys == before.Keys && forall p :: p in before ==> RekeyedPod(before[p], after[p])
  }

  ghost predicate Canonical(devices: map<string, DeviceConfig>) {
    forall k :: k in devices ==> MigratedKey(k, devices[k]) == k
  }

  /** Full records whose (claim, device, share) triples differ pairwise. */
  ghost predicate Distinguishable(devices: map<string, DeviceConfig>) {
    && (forall k :: k in devices ==>
          var d := devices[k]; d.claimUID != "" && d.deviceName != "" && '/' !in d.claimUID && '/' !in d.deviceName)
    && (forall j, k :: j in devices && k in devices && j != k ==>
          !(devices[j].claimUID == devices[k].claimUID && devices[j].deviceName == devices[k].deviceName
            && Share(devices[j].shareID) == Share(devices[k].shareID)))
  }

  /** A migrated pod needs no second migration. */
  lemma MigrationIdempotent(before: map<string, DeviceConfig>, after: map<string, DeviceConfig>, again: map<string, DeviceConfig>)
    requires Rekeyed(before, after) && Rekeyed(after, again)
    ensures Canonical(after) && again == after
  {
    forall n | n in after
      ensures MigratedKey(n, after[n]) == n
    {
      var k :| k in before && MigratedKey(k, before[k]) == n && before[k] == after[n];
    }
    CanonicalUnmoved(after, again);
  }

  /** Records stored under their own keys are not moved, so reloading them migrates nothing. */
  lemma CanonicalUnmoved(before: map<string, DeviceConfig>, after: map<string, DeviceConfig>)
    requires Canonical(before) && Rekeyed(before, after)
    ensures after == before
  {
  }

  /** Migration loses no record that has a claim UID and a device name of its own. */
  lemma MigrationLosesNothing(before: map<string, DeviceConfig>, after: map<string, DeviceConfig>)
    requires Rekeyed(before, after) && Distinguishable(before)
    ensures forall k :: k in before ==> MigratedKey(k, before[k]) in after && after[MigratedKey(k, before[k])] == before[k]
    ensures forall j, k :: j in before && k in before && j != k ==> MigratedKey(j, before[j]) != MigratedKey(k, before[k])
  {
    forall j, k | j in before && k in before && j != k
      ensures MigratedKey(j, before[j]) != MigratedKey(k, before[k])
    {
      StoreKeyInjective(before[j].claimUID, before[j].deviceName, before[j].shareID,
                        before[k].claimUID, before[k].deviceName, before[k].shareID);
    }
    forall k | k in before
      ensures after[MigratedKey(k, before[k])] == before[k]
    {
      var n := MigratedKey(k, before[k]);
      var j :| j in before && MigratedKey(j, before[j]) == n && before[j] == after[n];
      assert j == k;
    }
  }

  // ---------------------------------------------------------------- the store

  function PodAt(pods: map<string, PodConfig>, pod: string): PodConfig {
    if pod in pods then pods[pod] else PodConfig(pod, "", map[])
  }

  function WithDevice(pods: map<string, PodConfig>, pod: string, key: string, cfg: DeviceConfig): map<string, PodConfig> {
    var p := PodAt(pods, pod);
    pods[pod := p.(devices := p.devices[key := cfg])]
  }

  function WithNetNS(pods: map<string, PodConfig>, pod: string, netns: string): map<string, PodConfig> {
    pods[pod := PodAt(pods, pod).(podUID := pod, netNS := netns)]
  }

  function DevicesWithout(devices: map<string, DeviceConfig>, claim: string): map<string, DeviceConfig> {
    map k | k in devices && devices[k].claimUID != claim :: devices[k]
  }

  /** The claim's records are gone, and with them every pod left without a device. */
  function WithoutClaim(pods: map<string, PodConfig>, claim: string): map<string, PodConfig> {
    map p | p in pods && DevicesWithout(pods[p].devices, claim) != map[] ::
      pods[p].(devices := DevicesWithout(pods[p].devices, claim))
  }

  /** Nothing of the claim remains, and every other claim's records are as before. */
  lemma WithoutClaimExact(pods: map<string, PodConfig>, claim: string, pod: string, key: string)
    ensures var after := WithoutClaim(pods, claim);
            && (pod in after && key in after[pod].devices <==>
                  pod in pods && key in pods[pod].devices && pods[pod].devices[key].claimUID != claim)
            && (pod in after && key in after[pod].devices ==>
                  after[pod].devices[key] == pods[pod].devices[key] && after[pod].netNS == pods[pod].netNS)
    ensures WithoutClaim(WithoutClaim(pods, claim), claim) == WithoutClaim(pods, claim)
  {
    if pod in pods && key in pods[pod].devices && pods[pod].devices[key].claimUID != claim {
      assert key in DevicesWithout(pods[pod].devices, claim);
    }
    WithoutClaimTwice(pods, claim);
  }

  lemma WithoutClaimTwice(pods: map<string, PodConfig>, claim: string)
    ensures WithoutClaim(WithoutClaim(pods, claim), claim) == WithoutClaim(pods, claim)
  {
    var after := WithoutClaim(pods, claim);
    forall p | p in after
      ensures DevicesWithout(after[p].devices, claim) == after[p].devices
    {
      DevicesWithoutTwice(pods[p].devices, claim);
    }
  }

  lemma DevicesWithoutTwice(devices: map<string, DeviceConfig>, claim: string)
    ensures DevicesWithout(DevicesWithout(devices, claim), claim) == DevicesWithout(devices, claim)
  {
  }

  ghost predicate AnyMisplaced(pods: map<string, PodConfig>, some: set<string>) {
    exists p :: p in some && p in pods && !Canonical(pods[p].devices)
  }

  lemma OneMoreMisplaced(pods: map<string, PodConfig>, some: set<string>, p: string)
    requires p in pods
    ensures AnyMisplaced(pods, some + {p}) <==> AnyMisplaced(pods, some) || !Canonical(pods[p].devices)
  {
  }

  class Store {
    var pods: map<string, PodConfig>
    var ips: map<string, IPAllocation>
    ghost var failures: nat  // the writes of the state file that failed

    constructor ()
      ensures pods == map[] && ips == map[]
    {
      pods, ips := map[], map[];
    }

    /** Writing the state file may fail; what is in memory has changed by then. */
    method Persist() returns (ok: bool)
      modifies this`failures
      ensures failures == old(failures) + (if ok then 0 else 1)
    {
      ok := *;
      if !ok {
        failures := failures + 1;
      }
    }

    method SetDevice(pod: string, key: string, cfg: DeviceConfig) returns (ok: bool)
      modifies this`pods, this`failures
      ensures pods == WithDevice(old(pods), pod, key, cfg)
      ensures failures == old(failures) + (if ok then 0 else 1)
    {
      var p := PodAt(pods, pod);
      pods := pods[pod := p.(devices := p.devices[key := cfg])];
      ok := Persist();
    }

    method SetNetNS(pod: string, netns: string) returns (ok: bool)
      modifies this`pods, this`failures
      ensures pods == WithNetNS(old(pods), pod, netns)
      ensures failures == old(failures) + (if ok then 0 else 1)
    {
      pods := pods[pod := PodAt(pods, pod).(podUID := pod, netNS := netns)];
      ok := Persist();
    }

    /** One reservation per claim: repeating it is fine, changing it is refused. */
    method ReserveIP(pool: string, address: string, claim: string, pod: string) returns (ok: bool)
      modifies this`ips, this`failures
      ensures failures == old(failures) + (if claim !in old(ips) && !ok then 1 else 0)
      ensures claim in old(ips) ==> ips == old(ips) && (ok <==> ips[claim].pool == pool && ips[claim].address == address)
      ensures claim !in old(ips) ==> ips == old(ips)[claim := IPAllocation(pool, address, claim, pod)]
      ensures ok ==> claim in ips && ips[claim].pool == pool && ips[claim].address == address
    {
      if claim in ips {
        return ips[claim].pool == pool && ips[claim].address == address;
      }
      ips := ips[claim := IPAllocation(pool, address, claim, pod)];
      ok := Persist();
    }

    method DeleteClaim(claim: string) returns (ok: bool)
      modifies this
      ensures pods == WithoutClaim(old(pods), claim)
      ensures ips == old(ips) - {claim}
      ensures failures == old(failures) + (if ok then 0 else 1)
    {
      pods := RemoveClaim(pods, claim);
      ips := ips - {claim};
      ok := Persist();
    }

    static method RemoveClaim(pods: map<string, PodConfig>, claim: string) returns (result: map<string, PodConfig>)
      ensures result == WithoutClaim(pods, claim)
    {
      result := pods;
      var left := pods.Keys;
      while left != {}
        invariant left <= pods.Keys && result.Keys <= pods.Keys
        invariant forall p :: p in left ==> p in result && result[p] == pods[p]
        invariant forall p :: p in pods && p !in left ==>
                    if DevicesWithout(pods[p].devices, claim) == map[] then p !in result
                    else p in result && result[p] == pods[p].(devices := DevicesWithout(pods[p].devices, claim))
        decreases |left|
      {
        var p :| p in left;
        var devices := RemoveClaimDevices(result[p].devices, claim);
        if devices == map[] {
          result := result - {p};
        } else {
          result := result[p := result[p].(devices := devices)];
        }
        left := left - {p};
      }
    }

    /** Deleting from the device map while ranging over it. */
    static method RemoveClaimDevices(devices: map<string, DeviceConfig>, claim: string) returns (kept: map<string, DeviceConfig>)
      ensures kept == DevicesWithout(devices, claim)
    {
      kept := devices;
      var left := devices.Keys;
      while left != {}
        invariant left <= devices.Keys && kept.Keys <= devices.Keys
        invariant forall k :: k in kept ==> kept[k] == devices[k]
        invariant forall k :: k in left ==> k in kept
        invariant forall k :: k in devices && k !in left ==> (k in kept <==> devices[k].claimUID != claim)
        decreases |left|
      {
        var k :| k in left;
        if kept[k].claimUID == claim {
          kept := kept - {k};
        }
        left := left - {k};
      }
    }

    /** migrateDeviceKeys, run when a state file is loaded. */
    method MigrateDeviceKeys() returns (changed: bool)
      modifies this`pods
      ensures RekeyedPods(old(pods), pods)
      ensures changed <==> exists p :: p in old(pods) && !Canonical(old(pods)[p].devices)
    {
      pods, changed := MigratePods(pods);
    }

    static method MigratePods(pods: map<string, PodConfig>) returns (result: map<string, PodConfig>, changed: bool)
      ensures RekeyedPods(pods, result)
      ensures changed <==> exists p :: p in pods && !Canonical(pods[p].devices)
    {
      result, changed := pods, false;
      var done: set<string> := {};
      while done != pods.Keys
        invariant done <= pods.Keys == result.Keys
        invariant forall p :: p in pods ==> if p in done then RekeyedPod(pods[p], result[p]) else result[p] == pods[p]
        invariant changed <==> AnyMisplaced(pods, done)
        decreases pods.Keys - done
      {
        var p :| p in pods && p !in done;
        var pod, moved := MigratePod(pods[p]);
        result := result[p := pod];
        changed := changed || moved;
        OneMoreMisplaced(pods, done, p);
        done := done + {p};
      }
    }

    static method MigratePod(pod: PodConfig) returns (result: PodConfig, moved: bool)
      ensures RekeyedPod(pod, result)
      ensures moved <==> !Canonical(pod.devices)
    {
      var devices;
      devices, moved := MigrateDevices(pod.devices);
      result := pod.(devices := devices);
    }

    static method MigrateDevices(devices: map<string, DeviceConfig>) returns (result: map<string, DeviceConfig>, moved: bool)
      ensures Rekeyed(devices, result)
      ensures moved <==> !Canonical(devices)
    {
      result, moved := map[], false;
      var left := devices.Keys;
      while left != {}
        invariant left <= devices.Keys
        invariant forall k :: k in devices && k !in left ==> MigratedKey(k, devices[k]) in result
        invariant forall n :: n in result ==> exists k :: k in devices && MigratedKey(k, devices[k]) == n && devices[k] == result[n]
        invariant moved <==> exists k :: k in devices && k !in left && MigratedKey(k, devices[k]) != k
        decreases |left|
      {
        var oldKey :| oldKey in left;
        var key := MigratedKey(oldKey, devices[oldKey]);
        result := result[key := devices[oldKey]];
        moved := moved || key != oldKey;
        left := left - {oldKey};
      }
    }
  }

  /** Loading a state in which every record is under its own key changes nothing and reports no change. */
  method ReloadCanonical(s: Store) returns (changed: bool)
    requires forall p :: p in s.pods ==> Canonical(s.pods[p].devices)
    modifies s`pods
    ensures !changed && s.pods == old(s.pods)
  {
    ghost var before := s.pods;
    changed := s.MigrateDeviceKeys();
    forall p | p in s.pods
      ensures s.pods[p] == before[p]
    {
      CanonicalUnmoved(before[p].devices, s.pods[p].devices);
    }
  }
}
