/** Unpreparing a claim: what each attempt leaves undone the next one does, and the end is always the same. */
module Unprepare {
  import opened Text
  import opened Protocol
  import opened NodeStore
  import opened Kernel
  import opened HostDevice
  import opened NodeRecords
  import opened NodeRuns
  import opened Api
  import opened Ipam
  import opened DeviceStatus

  // ---------------------------------------------------------------- the claim's device status

  class ClaimApi {
    var devices: map<ClaimKey, seq<Status>>  // the status lists of the claims that exist
    ghost var failures: nat                  // the calls that were not answered

    method Get(key: ClaimKey) returns (ok: bool, r: Option<seq<Status>>)
      modifies this`failures
      ensures ok ==> r == if key in devices then Some(devices[key]) else None
      ensures failures == old(failures) + (if ok then 0 else 1)
    {
      ok := *;
      if !ok {
        failures := failures + 1;
      }
      r := if key in devices then Some(devices[key]) else None;
    }

    /** The write may take effect unanswered. */
    method UpdateStatus(key: ClaimKey, list: seq<Status>) returns (ok: bool)
      requires key in devices
      modifies this
      ensures devices == old(devices) || devices == old(devices)[key := list]
      ensures ok ==> devices == old(devices)[key := list]
      ensures failures == old(failures) + (if ok then 0 else 1)
    {
      ok := false;
      var effective: bool := *;
      if effective {
        devices := devices[key := list];
        ok := *;
      }
      if !ok {
        failures := failures + 1;
      }
    }
  }

  /** The status lists once the driver's entries are gone from this claim's. */
  function Cleared(devices: map<ClaimKey, seq<Status>>, key: ClaimKey, driver: string): map<ClaimKey, seq<Status>> {
    if key in devices then devices[key := Without(devices[key], driver)] else devices
  }

  lemma {:induction false} WithoutTwice(list: seq<Status>, driver: string)
    ensures Without(Without(list, driver), driver) == Without(list, driver)
    ensures |Without(list, driver)| == |list| ==> Without(list, driver) == list
    ensures |Without(list, driver)| <= |list|
  {
    if list != [] {
      WithoutTwice(list[1..], driver);
      if list[0].key.driver != driver {
        assert Without(list, driver)[1..] == Without(list[1..], driver);
      }
    }
  }

  lemma {:induction false} WithoutForgetsOwn(list: seq<Status>, s: Status)
    ensures Without(Upsert(list, s), s.key.driver) == Without(list, s.key.driver)
  {
    if list == [] {
      assert Upsert(list, s)[1..] == [];
    } else {
      WithoutForgetsOwn(list[1..], s);
      assert Upsert(list, s)[1..] == if list[0].key == s.key then list[1..] else Upsert(list[1..], s);
    }
  }

  lemma ClearedTwice(devices: map<ClaimKey, seq<Status>>, key: ClaimKey, driver: string)
    ensures Cleared(Cleared(devices, key, driver), key, driver) == Cleared(devices, key, driver)
  {
    if key in devices {
      WithoutTwice(devices[key], driver);
    }
  }

  /** removeResourceClaimDeviceStatus */
  method RemoveDeviceStatus(claims: ClaimApi, key: ClaimKey, driver: string) returns (ok: bool)
    modifies claims
    ensures Cleared(claims.devices, key, driver) == old(Cleared(claims.devices, key, driver))
    ensures ok ==> claims.devices == old(Cleared(claims.devices, key, driver))
    ensures claims.failures == old(claims.failures) + (if ok then 0 else 1)
  {
    ClearedTwice(claims.devices, key, driver);
    var current;
    ok, current := claims.Get(key);
    if !ok || current.None? {
      return;
    }
    var list := new Status[|current.value|](i requires 0 <= i < |current.value| => current.value[i]);
    assert list[..] == current.value;
    WithoutTwice(current.value, driver);
    var n := RemoveInPlace(list, driver);
    if n == list.Length {
      return true;
    }
    ok := claims.UpdateStatus(key, list[..n]);
  }

  /** While restoring, each NIC brought home may be reported in the status; removal forgets that again. */
  method ReportRestored(claims: ClaimApi, key: ClaimKey, status: Status)
    modifies claims
    ensures Cleared(claims.devices, key, status.key.driver) == old(Cleared(claims.devices, key, status.key.driver))
    ensures claims.failures >= old(claims.failures)
  {
    if key in claims.devices {
      WithoutForgetsOwn(claims.devices[key], status);
      var list := DeviceStatus.MergeStatus(claims.devices[key], status);
      var ignored := claims.UpdateStatus(key, list);
    }
  }

  // ---------------------------------------------------------------- CDI specifications

  datatype Spec = Spec(claim: string, device: string)

  class CdiDirectory {
    var specs: set<Spec>
    ghost var failures: nat  // the removals that failed
  }

  function OtherSpecs(specs: set<Spec>, claim: string): set<Spec> {
    set s | s in specs && s.claim != claim
  }

  /** removeClaimCDISpecs: one file after the other, until one cannot be removed. */
  method RemoveClaimCdiSpecs(cdi: CdiDirectory, claim: string) returns (ok: bool)
    modifies cdi
    ensures OtherSpecs(cdi.specs, claim) == old(OtherSpecs(cdi.specs, claim))
    ensures ok ==> cdi.specs == old(OtherSpecs(cdi.specs, claim))
    ensures cdi.failures == old(cdi.failures) + (if ok then 0 else 1)
  {
    ghost var others := OtherSpecs(cdi.specs, claim);
    var left := set s | s in cdi.specs && s.claim == claim;
    assert cdi.specs == others + left;
    while left != {}
      invariant cdi.specs == others + left && cdi.failures == old(cdi.failures) && forall s :: s in left ==> s.claim == claim
      decreases left
    {
      var s :| s in left;
      ok := *;
      if !ok {
        cdi.failures := cdi.failures + 1;
        return;
      }
      cdi.specs, left := cdi.specs - {s}, left - {s};
    }
    return true;
  }

  // ---------------------------------------------------------------- unprepare

  /** What an unprepare works on. */
  datatype Outcome = Outcome(
    links: Links, pods: map<string, PodConfig>, ips: map<string, IPAllocation>, objects: map<string, Object>,
    devices: map<ClaimKey, seq<Status>>, specs: set<Spec>)

  datatype Stage = AtRestore | AtStatus | AtAllocations | AtCdi | AtStore | Through

  ghost predicate OwnsNone(c: Cluster, uid: string) {
    forall name :: !Owns(c, uid, name)
  }

  /** How far an attempt that ends at this stage has come with the claim's allocations. */
  ghost predicate Reached(before: Cluster, after: Cluster, uid: string, stage: Stage) {
    && Releasing(before, after, uid)
    && (stage == AtRestore || stage == AtStatus ==> after == before)
    && (stage == AtCdi || stage == AtStore || stage == Through ==> after.objects == Unowned(before, uid))
  }

  class Plugin {
    const node: Node
    const api: ApiServer
    const claims: ClaimApi
    const cdi: CdiDirectory
    const driver: string
    const dpdk: bool

    constructor (node: Node, api: ApiServer, claims: ClaimApi, cdi: CdiDirectory, driver: string, dpdk: bool)
      ensures this.node == node && this.api == api && this.claims == claims && this.cdi == cdi
    {
      this.node, this.api, this.claims, this.cdi, this.driver, this.dpdk := node, api, claims, cdi, driver, dpdk;
    }

    /** The calls of any kind that failed. */
    ghost function Failures(): nat
      reads node`unreported, node.kernel`failures, node.store`failures, api`failures, claims`failures, cdi`failures
    {
      node.Failures() + api.failures + claims.failures + cdi.failures
    }

    ghost function Now(): Outcome
      reads node.kernel, node.store, api, claims, cdi
    {
      Outcome(node.kernel.links, node.store.pods, node.store.ips, api.cluster.objects, claims.devices, cdi.specs)
    }

    /** The state that an unprepare of the claim leads to: its NICs home and as saved, and nothing of it left. */
    ghost function Final(uid: string, key: ClaimKey): Outcome
      reads node, node.kernel, node.store, node.nicOf.Keys, api, claims, cdi
    {
      Outcome(node.Destination(uid).0, node.Destination(uid).1, node.store.ips - {uid}, Unowned(api.cluster, uid),
              Cleared(claims.devices, key, driver), if dpdk then OtherSpecs(cdi.specs, uid) else cdi.specs)
    }

    method Report(reports: seq<Status>, key: ClaimKey)
      modifies claims
      ensures Cleared(claims.devices, key, driver) == old(Cleared(claims.devices, key, driver)) && claims.failures >= old(claims.failures)
    {
      for i := 0 to |reports|
        invariant Cleared(claims.devices, key, driver) == old(Cleared(claims.devices, key, driver)) && claims.failures >= old(claims.failures)
      {
        if reports[i].key.driver == driver {
          ReportRestored(claims, key, reports[i]);
        }
      }
    }

    /** The middle of an attempt: device status, cluster allocations, CDI specifications. */
    method RemoveElsewhere(restored: bool, uid: string, key: ClaimKey) returns (stage: Stage)
      modifies api, claims, cdi
      ensures stage == AtRestore <==> !restored
      ensures stage != AtStore
      ensures Cleared(claims.devices, key, driver) == old(Cleared(claims.devices, key, driver))
      ensures Unowned(api.cluster, uid) == old(Unowned(api.cluster, uid))
      ensures OtherSpecs(cdi.specs, uid) == old(OtherSpecs(cdi.specs, uid)) && (!dpdk ==> cdi.specs == old(cdi.specs))
      ensures Reached(old(api.cluster), api.cluster, uid, stage)
      ensures stage == Through ==> claims.devices == old(Cleared(claims.devices, key, driver))
      ensures stage == Through && dpdk ==> cdi.specs == old(OtherSpecs(cdi.specs, uid))
      ensures Failures() >= old(Failures()) && (restored && Failures() == old(Failures()) ==> stage == Through)
    {
      var reports: seq<Status> := *;
      Report(reports, key);
      if !restored {
        assert Releasing(api.cluster, api.cluster, uid);
        return AtRestore;
      }
      var ok := RemoveDeviceStatus(claims, key, driver);
      if !ok {
        return AtStatus;
      }
      ghost var before := api.cluster;
      ok := DeleteForClaim(api, uid);
      ReleasingKeepsUnowned(before, api.cluster, uid);
      if !ok {
        return AtAllocations;
      }
      if dpdk {
        ok := RemoveClaimCdiSpecs(cdi, uid);
        if !ok {
          return AtCdi;
        }
      }
      return Through;
    }

    /** The last step: dropping the records of NICs that are home changes no destination. */
    method DropRecords(uid: string) returns (ok: bool)
      requires node.Inv() && node.ClaimHome(uid)
      modifies node.store
      ensures node.Inv() && node.Destination(uid) == old(node.Destination(uid))
      ensures node.kernel.links == node.Destination(uid).0 && node.store.pods == node.Destination(uid).1
      ensures node.store.ips == old(node.store.ips) - {uid}
      ensures Failures() == old(Failures()) + (if ok then 0 else 1)
    {
      ghost var pods := node.store.pods;
      NoneAwaiting(pods, node.nicOf, node.Flags(), node.kernel.links, uid);
      ok := node.DropClaim(uid);
      DroppedAwaitsNothing(pods, uid);
      NoneAwaiting(node.store.pods, node.nicOf, node.Flags(), node.kernel.links, uid);
      WithoutClaimExact(pods, uid, "", "");
    }

    /** The state is as foretold; the links are, unless an address delete has failed in a restore that succeeded. */
    ghost predicate AsForetold(o: Outcome, foretold: Outcome)
      reads node.kernel
    {
      o.(links := foretold.links) == foretold && (!node.kernel.undeleted ==> o == foretold)
    }

    /** One attempt. Wherever it fails, it leads to the same final state as before; success is that state.
        The address record of the node outlives the cluster's exactly when the attempt ends at the CDI
        specifications, or at the cluster's allocations although the last of them is gone: its Delete took effect
        and the reply was lost. When nothing stands in the way of restoring the claim's NICs and no call fails, it succeeds. */
    method Attempt(uid: string, key: ClaimKey) returns (stage: Stage)
      requires node.Inv()
      modifies node.kernel, node.store, node.nicOf.Keys, api, claims, cdi
      ensures node.Inv() && node.nicOf == old(node.nicOf)
      ensures old(node.kernel.undeleted) ==> node.kernel.undeleted
      ensures AsForetold(Final(uid, key), old(Final(uid, key)))
      ensures stage == Through ==> AsForetold(Now(), old(Final(uid, key)))
      ensures old(uid in node.store.ips && !OwnsNone(api.cluster, uid)) ==>
                (uid in node.store.ips && OwnsNone(api.cluster, uid)
                 <==> stage == AtCdi || (stage == AtAllocations && api.cluster.objects == old(Unowned(api.cluster, uid))))
      ensures Failures() >= old(Failures())
      ensures old(node.ClaimAble(uid)) && Failures() == old(Failures()) ==> stage == Through
    {
      var restored := node.RestoreClaim(uid);
      stage := Finish(restored, uid, key);
      ReleasingKeepsUnowned(old(api.cluster), api.cluster, uid);
    }

    /** An attempt after the NICs have been seen to. */
    method Finish(restored: bool, uid: string, key: ClaimKey) returns (stage: Stage)
      requires node.Inv() && (restored ==> node.ClaimHome(uid))
      modifies node.store, api, claims, cdi
      ensures node.Inv() && Final(uid, key) == old(Final(uid, key))
      ensures stage == Through ==> Now() == old(Final(uid, key))
      ensures Reached(old(api.cluster), api.cluster, uid, stage)
      ensures node.store.ips == if stage == Through || stage == AtStore then old(node.store.ips) - {uid} else old(node.store.ips)
      ensures Failures() >= old(Failures()) && (restored && Failures() == old(Failures()) ==> stage == Through)
    {
      stage := RemoveElsewhere(restored, uid, key);
      if stage != Through {
        return;
      }
      var saved := DropRecords(uid);
      if !saved {
        stage := AtStore;
      }
    }

    /** Retried until it succeeds, an unprepare ends in the one state fixed at the start, however many attempts failed and where.
        The first attempt succeeds if no call fails and nothing stands in the way of the NICs. */
    method UnprepareUntilDone(uid: string, key: ClaimKey, attempts: nat) returns (done: bool)
      requires node.Inv()
      modifies node.kernel, node.store, node.nicOf.Keys, api, claims, cdi
      ensures node.Inv()
      ensures done ==> AsForetold(Now(), old(Final(uid, key)))
      ensures attempts > 0 && old(node.ClaimAble(uid)) && Failures() == old(Failures()) ==> done
    {
      done := false;
      node.kernel.undeleted := false;
      for i := 0 to attempts
        invariant node.Inv() && node.nicOf == old(node.nicOf)
        invariant AsForetold(Final(uid, key), old(Final(uid, key)))
        invariant Failures() >= old(Failures())
        invariant old(node.ClaimAble(uid)) && Failures() == old(Failures()) ==> i == 0 && node.ClaimAble(uid)
      {
        var stage := Attempt(uid, key);
        if stage == Through {
          return true;
        }
      }
    }
  }

  lemma NoneAwaiting(pods: map<string, PodConfig>, nicOf: map<HostDeviceState, nat>, flags: map<HostDeviceState, bool>,
                     links: Links, claim: string)
    requires forall s :: HasNic(pods, s) && Rec(pods, s).claimUID == claim && NodeRecords.State(pods, s) in flags ==>
               flags[NodeRecords.State(pods, s)]
    ensures HomedLinks(pods, nicOf, flags, links, claim) == links
  {
  }

  lemma DroppedAwaitsNothing(pods: map<string, PodConfig>, claim: string)
    ensures forall s :: HasNic(WithoutClaim(pods, claim), s) ==> Rec(WithoutClaim(pods, claim), s).claimUID != claim
  {
  }

  /** What is left is all of the others' and nothing of the claim's. */
  lemma FinalExact(c: Cluster, uid: string, pods: map<string, PodConfig>, ips: map<string, IPAllocation>,
                   devices: map<ClaimKey, seq<Status>>, key: ClaimKey, driver: string,
                   name: string, pod: string, device: string, other: DeviceKey,
                   nicOf: map<HostDeviceState, nat>, flags: map<HostDeviceState, bool>, links: Links, nic: nat, specs: set<Spec>)
    requires (forall s :: HasNic(pods, s) ==> NodeRecords.State(pods, s) in nicOf) && RecordsApart(pods, nicOf)
    requires flags.Keys == nicOf.Keys
    ensures name in Unowned(c, uid) <==> name in c.objects && !Owns(c, uid, name)
    ensures name in Unowned(c, uid) ==> Unowned(c, uid)[name] == c.objects[name]
    ensures var after := WithoutClaim(pods, uid);
            && (pod in after && device in after[pod].devices <==>
                  pod in pods && device in pods[pod].devices && pods[pod].devices[device].claimUID != uid)
            && (pod in after && device in after[pod].devices ==> after[pod].devices[device] == pods[pod].devices[device])
    ensures uid !in ips - {uid} && forall u :: u in ips && u != uid ==> u in ips - {uid} && (ips - {uid})[u] == ips[u]
    ensures nic in links ==>
              var after := HomedLinks(pods, nicOf, flags, links, uid)[nic];
              && ((forall s :: !Awaits(pods, nicOf, flags, uid, nic, s)) ==> after == links[nic])
              && (forall s :: Awaits(pods, nicOf, flags, uid, nic, s) ==> after == SavedLink(links[nic].(ns := Host), NodeRecords.State(pods, s)))
    ensures forall s :: s in OtherSpecs(specs, uid) <==> s in specs && s.claim != uid
    ensures key in devices ==>
              DeviceStatus.Find(Cleared(devices, key, driver)[key], other)
              == if other.driver == driver then None else DeviceStatus.Find(devices[key], other)
  {
    WithoutClaimExact(pods, uid, pod, device);
    if nic in links {
      forall s | Awaits(pods, nicOf, flags, uid, nic, s)
        ensures HomedLink(pods, nicOf, flags, links, uid, nic) == SavedLink(links[nic].(ns := Host), NodeRecords.State(pods, s))
      {
        SoleAwaiting(pods, nicOf, flags, links, uid, nic, s);
      }
    }
    if key in devices {
      WithoutFind(devices[key], driver, other);
    }
  }
}
