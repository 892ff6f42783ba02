/** A NIC lent out and brought home is the NIC that was lent. */
module RoundTrip {
  import opened Text
  import opened NodeStore
  import opened Kernel
  import opened HostDevice

  /** No other link answers to the record. */
  ghost predicate OthersSilent(links: Links, path: string, cfg: DeviceConfig, nic: nat)
    requires cfg.hostDevice != null
  {
    nic in links && forall i :: i in links && i != nic ==> !AnswersTo(links[i], path, cfg)
  }

  lemma AttachedIsSilent(before: Links, after: Links, path: string, cfg: DeviceConfig, cfg': DeviceConfig, nic: nat)
    requires cfg.hostDevice != null && cfg'.hostDevice == cfg.hostDevice && ValidLinks(after)
    requires OthersSilent(before, path, cfg, nic) && OnlyChanges(before, after, nic)
    requires cfg'.attachedIf == "" || (after[nic].ns == PodNs(path) && after[nic].name == cfg'.attachedIf)
    ensures OthersSilent(after, path, cfg', nic)
  {
  }

  lemma BackAsBefore(before: Links, between: Links, after: Links, nic: nat)
    requires OnlyChanges(before, between, nic) && OnlyChanges(between, after, nic)
    ensures OnlyChanges(before, after, nic)
    ensures nic in before && after[nic] == before[nic] ==> after == before
  {
  }

  /** The NIC is as it was lent. A hardware address or MTU it was lent without stays as the pod left it. */
  predicate AsLent(lent: Link, now: Link) {
    && now == lent.(mac := now.mac, mtu := now.mtu)
    && (lent.mac != "" ==> now.mac == lent.mac) && (lent.mtu > 0 ==> now.mtu == lent.mtu)
  }

  /** Any number of restore attempts; the last one made is reported. */
  method RestoreUntilHome(kernel: Netlink, path: string, cfg: DeviceConfig, attempts: nat, ghost nic: nat, ghost lent: Link)
    returns (home: bool, cfg': DeviceConfig)
    requires kernel.Valid() && cfg.hostDevice != null && WellSaved(cfg.hostDevice) && !cfg.hostDevice.restored
    requires cfg.hostDevice.originalMAC == lent.mac && cfg.hostDevice.originalMTU == lent.mtu
    requires OthersSilent(kernel.links, path, cfg, nic) && SavedLink(lent, cfg.hostDevice) == lent && lent.ns == Host
    modifies kernel, cfg.hostDevice
    ensures kernel.Valid() && OnlyChanges(old(kernel.links), kernel.links, nic)
    ensures home == cfg.hostDevice.restored
    ensures home ==> cfg' == cfg.(attachedIf := "", lifecycle := "Restored") && kernel.links[nic].ns == Host
    ensures home && !kernel.undeleted ==> AsLent(lent, kernel.links[nic])
    ensures !home ==> cfg' == cfg
    ensures kernel.failures >= old(kernel.failures)
    ensures kernel.failures == old(kernel.failures) && attempts > 0 && old(Restorable(kernel.links, path, cfg, nic)) ==> home && !kernel.undeleted
  {
    home, cfg' := false, cfg;
    for n := 0 to attempts
      invariant kernel.Valid() && OnlyChanges(old(kernel.links), kernel.links, nic)
      invariant !home && !cfg.hostDevice.restored && cfg' == cfg && kernel.failures >= old(kernel.failures)
      invariant kernel.failures == old(kernel.failures) && old(Restorable(kernel.links, path, cfg, nic)) ==>
                  n == 0 && kernel.links == old(kernel.links)
    {
      ghost var touched;
      ghost var before := kernel.links;
      kernel.undeleted := false;
      home, cfg', touched := RestoreHostDevice(kernel, path, cfg);
      assert touched.Some? ==> AnswersTo(before[touched.value], path, cfg) && touched.value == nic;
      if home {
        return;
      }
    }
  }

  /** The names that the NIC has on its way are free in the pod. */
  ghost predicate FreeToGo(links: Links, nic: nat, path: string, prepared: DeviceConfig)
    requires nic in links
  {
    && links[nic].name != "" && path != "" && !NameTaken(links, PodNs(path), links[nic].name, nic)
    && !NameTaken(links, PodNs(path), NameInPod(prepared, links[nic].name), nic)
  }

  /** Snapshot and attach. A record that does not say Restored is all a restore needs, attached or not; one that
      does was rolled back. */
  method Lend(kernel: Netlink, nic: nat, path: string, prepared: DeviceConfig) returns (attached: bool, cfg: DeviceConfig)
    requires kernel.Valid() && nic in kernel.links && kernel.links[nic].ns == Host
    requires kernel.links[nic].mac != "" ==> forall i :: i in kernel.links && i != nic ==> kernel.links[i].mac != kernel.links[nic].mac
    requires prepared.attachedIf == "" && prepared.hostDevice == null
    modifies kernel
    ensures kernel.Valid() && OnlyChanges(old(kernel.links), kernel.links, nic)
    ensures cfg.hostDevice == null ==> !attached
    ensures cfg.hostDevice != null ==>
              && fresh(cfg.hostDevice) && WellSaved(cfg.hostDevice) && OthersSilent(kernel.links, path, cfg, nic)
              && SavedLink(old(kernel.links[nic]), cfg.hostDevice) == old(kernel.links[nic])
              && cfg.hostDevice.originalMAC == old(kernel.links[nic].mac) && cfg.hostDevice.originalMTU == old(kernel.links[nic].mtu)
              && (cfg.hostDevice.restored && !kernel.undeleted ==> AsLent(old(kernel.links[nic]), kernel.links[nic]))
    ensures attached ==> kernel.links[nic].ns == PodNs(path) && cfg.attachedIf == kernel.links[nic].name && !cfg.hostDevice.restored
    ensures attached ==>
              cfg.attachedIf == NameInPod(prepared, old(kernel.links[nic].name)) && cfg.hostDevice.originalName == old(kernel.links[nic].name)
    ensures kernel.failures >= old(kernel.failures)
    ensures kernel.failures == old(kernel.failures) && old(FreeToGo(kernel.links, nic, path, prepared)) ==> attached
  {
    kernel.undeleted := false;
    var h := SnapshotHostDevice(kernel, nic);
    if h == null {
      return false, prepared;
    }
    var recorded, moved := prepared.(hostDevice := h), false;
    assert OthersSilent(kernel.links, path, recorded, nic);
    attached, cfg, moved := AttachHostDevice(kernel, path, recorded, nic);
    AttachedIsSilent(old(kernel.links), kernel.links, path, recorded, cfg, nic);
  }

  /** Snapshot, attach, whatever the pod then does to MTU, hardware address, addresses and administrative
      state, and restore, possibly after failed attempts: the NIC is as it was lent and every other link as it was.
      So it is after an attach that failed and was rolled back. A further restore does nothing. And when the names
      on the way are free and no call fails, the NIC is attached and comes home with the first attempt. */
  method LendAndBringHome(kernel: Netlink, nic: nat, path: string, prepared: DeviceConfig,
                          mtu: int, mac: string, addrs: set<Address>, up: bool, attempts: nat)
    returns (attached: bool, home: bool)
    requires kernel.Valid() && nic in kernel.links && kernel.links[nic].ns == Host
    requires kernel.links[nic].mac != "" ==> forall i :: i in kernel.links && i != nic ==> kernel.links[i].mac != kernel.links[nic].mac
    requires prepared.attachedIf == "" && prepared.hostDevice == null && AddressesDistinct(addrs)
    modifies kernel
    ensures kernel.Valid() && OnlyChanges(old(kernel.links), kernel.links, nic)
    ensures home && !kernel.undeleted ==> AsLent(old(kernel.links[nic]), kernel.links[nic])
    ensures home && !kernel.undeleted && old(kernel.links[nic].mac) != "" && old(kernel.links[nic].mtu) > 0 ==>
              kernel.links == old(kernel.links)
    ensures kernel.failures == old(kernel.failures) && old(FreeToGo(kernel.links, nic, path, prepared)) && attempts > 0 ==>
              attached && home && !kernel.undeleted
  {
    home := false;
    var cfg;
    attached, cfg := Lend(kernel, nic, path, prepared);
    if cfg.hostDevice == null {
      return;
    }
    BackAsBefore(old(kernel.links), kernel.links, kernel.links, nic);
    if cfg.hostDevice.restored {
      return attached, true;
    }
    if attached {
      PodChanges(kernel, nic, mtu, mac, addrs, up);
      LentIsRestorable(old(kernel.links), kernel.links, nic, path, prepared, cfg);
    }
    ghost var between := kernel.links;
    home := RestoreTwice(kernel, path, cfg, attempts, nic, old(kernel.links[nic]));
    BackAsBefore(old(kernel.links), between, kernel.links, nic);
  }

  /** Restore until home, and once more in vain. */
  method RestoreTwice(kernel: Netlink, path: string, cfg: DeviceConfig, attempts: nat, ghost nic: nat, ghost lent: Link)
    returns (home: bool)
    requires kernel.Valid() && cfg.hostDevice != null && WellSaved(cfg.hostDevice) && !cfg.hostDevice.restored
    requires cfg.hostDevice.originalMAC == lent.mac && cfg.hostDevice.originalMTU == lent.mtu
    requires OthersSilent(kernel.links, path, cfg, nic) && SavedLink(lent, cfg.hostDevice) == lent && lent.ns == Host
    modifies kernel, cfg.hostDevice
    ensures kernel.Valid() && OnlyChanges(old(kernel.links), kernel.links, nic)
    ensures home && !kernel.undeleted ==> AsLent(lent, kernel.links[nic])
    ensures kernel.failures >= old(kernel.failures)
    ensures kernel.failures == old(kernel.failures) && attempts > 0 && old(Restorable(kernel.links, path, cfg, nic)) ==> home && !kernel.undeleted
  {
    var restored;
    home, restored := RestoreUntilHome(kernel, path, cfg, attempts, nic, lent);
    if home {
      ghost var before := kernel.links;
      var again, same;
      ghost var touched;
      again, same, touched := RestoreHostDevice(kernel, path, restored);
      assert again && same == restored && kernel.links == before;
    }
  }

  lemma LentIsRestorable(before: Links, after: Links, nic: nat, path: string, prepared: DeviceConfig, cfg: DeviceConfig)
    requires ValidLinks(before) && nic in before && before[nic].ns == Host && OnlyChanges(before, after, nic)
    requires cfg.hostDevice != null && cfg.hostDevice.originalName == before[nic].name && OthersSilent(after, path, cfg, nic)
    requires after[nic].ns == PodNs(path) && after[nic].name == cfg.attachedIf == NameInPod(prepared, before[nic].name)
    ensures FreeToGo(before, nic, path, prepared) ==> Restorable(after, path, cfg, nic)
  {
  }

  /** What the pod may do to a NIC it was lent. */
  method PodChanges(kernel: Netlink, nic: nat, mtu: int, mac: string, addrs: set<Address>, up: bool)
    requires kernel.Valid() && nic in kernel.links && AddressesDistinct(addrs)
    modifies kernel`links
    ensures kernel.Valid()
    ensures kernel.links == old(kernel.links)[nic := old(kernel.links[nic]).(mtu := mtu, mac := mac, addrs := addrs, up := up)]
  {
    kernel.links := kernel.links[nic := kernel.links[nic].(mtu := mtu, mac := mac, addrs := addrs, up := up)];
  }
}
