/** Lending a whole NIC to a pod and bringing it home: snapshot, attach, roll back, restore. */
module HostDevice {
  import opened Text
  import opened NodeStore
  import opened Kernel

  // ---------------------------------------------------------------- what is saved

  function ToSet(addrs: seq<Address>): set<Address> {
    set a | a in addrs
  }

  function PlainAddress(cidr: string): Address {
    Address(cidr, "", 0, 0, "", "", 0, 0)
  }

  function PlainAddresses(cidrs: seq<string>): seq<Address> {
    if cidrs == [] then [] else [PlainAddress(cidrs[0])] + PlainAddresses(cidrs[1..])
  }

  /** The addresses a restore puts back; records from before address details were kept have only their prefixes. */
  function SavedAddresses(h: HostDeviceState): seq<Address> {
    if h.addressState == [] then PlainAddresses(h.originalAddresses) else h.addressState
  }

  ghost predicate WellSaved(h: HostDeviceState) {
    AddressesDistinct(ToSet(SavedAddresses(h)))
  }

  /** The link as the snapshot has it, in the namespace it is in. A snapshot without hardware
      address or MTU leaves those alone. */
  function SavedLink(l: Link, h: HostDeviceState): Link {
    Link(l.ns, h.originalName, if h.originalMAC != "" then h.originalMAC else l.mac,
         if h.originalMTU > 0 then h.originalMTU else l.mtu, ToSet(SavedAddresses(h)), h.originalAdminUp)
  }

  /** What an unfinished restore may have done to the link: moved it home, put back some of what was saved. */
  ghost predicate Underway(before: Link, after: Link, h: HostDeviceState) {
    && (after.ns == before.ns || after.ns == Host)
    && (after.ns != before.ns ==> after.name == h.originalName)
    && (after.name == before.name || after.name == h.originalName)
    && (after.mac == before.mac || (h.originalMAC != "" && after.mac == h.originalMAC))
    && (after.mtu == before.mtu || (h.originalMTU > 0 && after.mtu == h.originalMTU))
  }

  ghost predicate Has(addrs: set<Address>, a: Address) {
    exists b :: b in addrs && SameAddress(a, b)
  }

  /** Every wanted address is on the link, possibly with other attributes. */
  ghost predicate Carries(addrs: set<Address>, wanted: seq<Address>) {
    forall a :: a in wanted ==> Has(addrs, a)
  }

  /** snapshotHostDevice */
  method SnapshotHostDevice(kernel: Netlink, i: nat) returns (h: HostDeviceState?)
    requires kernel.Valid() && i in kernel.links
    modifies kernel`failures
    ensures kernel.failures == old(kernel.failures) + (if h == null then 1 else 0)
    ensures h != null ==> fresh(h) && !h.restored && WellSaved(h)
    ensures h != null ==> SavedLink(kernel.links[i], h) == kernel.links[i]
    ensures h != null ==> h.originalName == kernel.links[i].name && h.originalMAC == kernel.links[i].mac && h.originalMTU == kernel.links[i].mtu
  {
    var ok, addrs := kernel.AddrList(i);
    if !ok {
      return null;
    }
    var cidrs: seq<string> := [];
    var states: seq<Address> := [];
    for j := 0 to |addrs|
      invariant states == addrs[..j] && |cidrs| == j
    {
      cidrs := cidrs + [addrs[j].cidr];
      states := states + [addrs[j]];
    }
    assert states == addrs && |cidrs| == |addrs|;
    var l := kernel.links[i];
    h := new HostDeviceState(l.name, l.up, l.mtu, l.mac, cidrs, states);
    assert SavedAddresses(h) == addrs;
    assert ToSet(addrs) == l.addrs;
  }

  // ---------------------------------------------------------------- putting a link back

  method ClearAddresses(kernel: Netlink, i: nat) returns (ok: bool)
    requires kernel.Valid() && i in kernel.links
    modifies kernel
    ensures kernel.Valid() && OnlyChanges(old(kernel.links), kernel.links, i)
    ensures kernel.links[i] == old(kernel.links[i]).(addrs := kernel.links[i].addrs)
    ensures old(kernel.undeleted) ==> kernel.undeleted
    ensures ok && !kernel.undeleted ==> kernel.links[i].addrs == {}
    ensures kernel.failures >= old(kernel.failures)
    ensures kernel.failures == old(kernel.failures) ==> ok && kernel.undeleted == old(kernel.undeleted)
  {
    var current;
    ok, current := kernel.AddrList(i);
    if !ok {
      return;
    }
    for j := 0 to |current|
      invariant kernel.Valid() && OnlyChanges(old(kernel.links), kernel.links, i)
      invariant kernel.links[i] == old(kernel.links[i]).(addrs := kernel.links[i].addrs)
      invariant old(kernel.undeleted) ==> kernel.undeleted
      invariant kernel.failures >= old(kernel.failures)
      invariant kernel.failures == old(kernel.failures) ==> kernel.undeleted == old(kernel.undeleted)
      invariant kernel.undeleted || forall a :: a in kernel.links[i].addrs ==> a in current[j..]
    {
      kernel.AddrDel(i, current[j]);
    }
  }

  lemma CarriesOneMore(before: set<Address>, after: set<Address>, wanted: seq<Address>, j: nat)
    requires j < |wanted| && Carries(before, wanted[..j]) && before <= after
    requires wanted[j] in after || Has(after, wanted[j])
    ensures Carries(after, wanted[..j + 1])
  {
    forall a | a in wanted[..j + 1]
      ensures Has(after, a)
    {
      if a in wanted[..j] {
        assert Has(before, a);
        var b :| b in before && SameAddress(a, b);
        assert b in after;
      } else {
        assert a == wanted[j] && SameAddress(a, a);
      }
    }
  }

  lemma OneMoreAddress(addrs: seq<Address>, j: nat)
    requires j < |addrs|
    ensures ToSet(addrs[..j + 1]) == ToSet(addrs[..j]) + {addrs[j]}
    ensures AddressesDistinct(ToSet(addrs)) && Has(ToSet(addrs[..j]), addrs[j]) ==> ToSet(addrs[..j + 1]) == ToSet(addrs[..j])
  {
  }

  method AddAddresses(kernel: Netlink, i: nat, addrs: seq<Address>) returns (ok: bool)
    requires kernel.Valid() && i in kernel.links
    modifies kernel`links, kernel`failures
    ensures kernel.Valid() && OnlyChanges(old(kernel.links), kernel.links, i)
    ensures kernel.links[i] == old(kernel.links[i]).(addrs := kernel.links[i].addrs)
    ensures ok && old(kernel.links[i].addrs) == {} && AddressesDistinct(ToSet(addrs)) ==> kernel.links[i].addrs == ToSet(addrs)
    ensures ok ==> Carries(kernel.links[i].addrs, addrs)
    ensures kernel.failures == old(kernel.failures) + (if ok then 0 else 1)
  {
    for j := 0 to |addrs|
      invariant kernel.Valid() && OnlyChanges(old(kernel.links), kernel.links, i)
      invariant kernel.links[i] == old(kernel.links[i]).(addrs := kernel.links[i].addrs)
      invariant old(kernel.links[i].addrs) == {} && AddressesDistinct(ToSet(addrs)) ==> kernel.links[i].addrs == ToSet(addrs[..j])
      invariant Carries(kernel.links[i].addrs, addrs[..j]) && kernel.failures == old(kernel.failures)
    {
      ghost var was := kernel.links[i].addrs;
      var r := kernel.AddrAdd(i, addrs[j]);
      if r == AddFailed {
        return false;
      }
      CarriesOneMore(was, kernel.links[i].addrs, addrs, j);
      OneMoreAddress(addrs, j);
    }
    assert addrs[..|addrs|] == addrs;
    return true;
  }

  /** Rename a link unless it has the name already, and look it up again under its new name. */
  method Rename(kernel: Netlink, i: nat, name: string) returns (ok: bool)
    requires kernel.Valid() && i in kernel.links
    modifies kernel`links, kernel`failures
    ensures kernel.Valid() && OnlyChanges(old(kernel.links), kernel.links, i)
    ensures kernel.links[i] == old(kernel.links[i]).(name := kernel.links[i].name)
    ensures kernel.links[i].name == old(kernel.links[i].name) || kernel.links[i].name == name
    ensures ok ==> kernel.links[i].name == name
    ensures kernel.failures >= old(kernel.failures)
    ensures kernel.failures == old(kernel.failures) && !NameTaken(old(kernel.links), old(kernel.links[i].ns), name, i) ==> ok
  {
    if kernel.links[i].name == name {
      return true;
    }
    ok := kernel.SetName(i, name);
    if !ok {
      return;
    }
    var again := kernel.LinkByName(kernel.links[i].ns, name);
    ok := again.Some?;
    assert ok ==> again.value == i;
  }

  /** Hardware address and MTU, where the snapshot has them and they differ. */
  method RestoreHardware(kernel: Netlink, i: nat, h: HostDeviceState) returns (ok: bool)
    requires kernel.Valid() && i in kernel.links
    modifies kernel`links, kernel`failures
    ensures kernel.Valid() && OnlyChanges(old(kernel.links), kernel.links, i)
    ensures kernel.links[i] == old(kernel.links[i]).(mac := kernel.links[i].mac, mtu := kernel.links[i].mtu)
    ensures Underway(old(kernel.links[i]), kernel.links[i], h)
    ensures ok ==> kernel.links[i].mac == SavedLink(old(kernel.links[i]), h).mac
                   && kernel.links[i].mtu == SavedLink(old(kernel.links[i]), h).mtu
    ensures kernel.failures == old(kernel.failures) + (if ok then 0 else 1)
  {
    if h.originalMAC != "" && kernel.links[i].mac != h.originalMAC {
      ok := kernel.SetMac(i, h.originalMAC);
      if !ok {
        return;
      }
    }
    if h.originalMTU > 0 && kernel.links[i].mtu != h.originalMTU {
      ok := kernel.SetMtu(i, h.originalMTU);
      if !ok {
        return;
      }
    }
    return true;
  }

  /** Exactly the saved addresses, then the saved administrative state. */
  method RestoreAddresses(kernel: Netlink, i: nat, h: HostDeviceState) returns (ok: bool)
    requires kernel.Valid() && i in kernel.links && WellSaved(h) && !kernel.links[i].up
    modifies kernel
    ensures kernel.Valid() && OnlyChanges(old(kernel.links), kernel.links, i)
    ensures kernel.links[i] == old(kernel.links[i]).(addrs := kernel.links[i].addrs, up := kernel.links[i].up)
    ensures old(kernel.undeleted) ==> kernel.undeleted
    ensures ok && !kernel.undeleted ==>
              kernel.links[i] == old(kernel.links[i]).(addrs := ToSet(SavedAddresses(h)), up := h.originalAdminUp)
    ensures kernel.failures >= old(kernel.failures)
    ensures kernel.failures == old(kernel.failures) ==> ok && kernel.undeleted == old(kernel.undeleted)
  {
    ok := ClearAddresses(kernel, i);
    if !ok {
      return;
    }
    var saved := h.addressState;
    if |saved| == 0 {
      saved := PlainAddresses(h.originalAddresses);
    }
    ok := AddAddresses(kernel, i, saved);
    if !ok {
      return;
    }
    if h.originalAdminUp {
      ok := kernel.SetUp(i);
    } else {
      ok := kernel.SetDown(i);
    }
  }

  /** restoreLinkState: success leaves the link exactly as saved, provided no address delete failed;
      failure leaves it on the way there. */
  method RestoreLinkState(kernel: Netlink, i: nat, h: HostDeviceState) returns (ok: bool)
    requires kernel.Valid() && i in kernel.links && WellSaved(h)
    modifies kernel
    ensures kernel.Valid() && OnlyChanges(old(kernel.links), kernel.links, i)
    ensures Underway(old(kernel.links[i]), kernel.links[i], h) && kernel.links[i].ns == old(kernel.links[i].ns)
    ensures old(kernel.undeleted) ==> kernel.undeleted
    ensures ok && !kernel.undeleted ==> kernel.links[i] == SavedLink(old(kernel.links[i]), h)
    ensures kernel.failures >= old(kernel.failures)
    ensures kernel.failures == old(kernel.failures) ==> kernel.undeleted == old(kernel.undeleted)
    ensures kernel.failures == old(kernel.failures) && !NameTaken(old(kernel.links), old(kernel.links[i].ns), h.originalName, i) ==> ok
  {
    ok := Rename(kernel, i, h.originalName);
    if !ok {
      return;
    }
    ok := kernel.SetDown(i);
    if !ok {
      return;
    }
    ok := RestoreHardware(kernel, i, h);
    if !ok {
      return;
    }
    ok := RestoreAddresses(kernel, i, h);
  }

  // ---------------------------------------------------------------- restore

  /** What the lookups of a restore accept: the saved name in the host namespace, the saved
      hardware address, or the attached name in the pod's namespace. */
  predicate Answers(l: Link, path: string, name: string, mac: string, attachedIf: string) {
    || (l.ns == Host && l.name == name)
    || (mac != "" && l.mac == mac)
    || (attachedIf != "" && l.ns == PodNs(path) && l.name == attachedIf)
  }

  predicate AnswersTo(l: Link, path: string, cfg: DeviceConfig)
    requires cfg.hostDevice != null
  {
    Answers(l, path, cfg.hostDevice.originalName, cfg.hostDevice.originalMAC, cfg.attachedIf)
  }

  /** Nothing but the NIC answers to its record. */
  ghost predicate Clear(links: Links, path: string, cfg: DeviceConfig, nic: nat)
    requires cfg.hostDevice != null
  {
    && nic in links
    && forall i :: i in links && AnswersTo(links[i], path, cfg) ==> i == nic
  }

  predicate FoundInPod(l: Link, path: string, h: HostDeviceState, attachedIf: string) {
    l.ns == PodNs(path) && ((attachedIf != "" && l.name == attachedIf) || (h.originalMAC != "" && l.mac == h.originalMAC))
  }

  /** Where a restore looks that is given this path. */
  predicate Searched(ns: Ns, path: string) {
    ns == Host || (path != "" && ns == PodNs(path))
  }

  /** Nothing but the NIC answers to the record; the NIC does, where the restore looks; and its name is free in the
      namespaces it passes through. */
  ghost predicate Restorable(links: Links, path: string, cfg: DeviceConfig, nic: nat)
    requires cfg.hostDevice != null
  {
    && Clear(links, path, cfg, nic) && AnswersTo(links[nic], path, cfg) && Searched(links[nic].ns, path)
    && cfg.hostDevice.originalName != "" && !NameTaken(links, Host, cfg.hostDevice.originalName, nic)
    && (links[nic].ns != Host ==> !NameTaken(links, PodNs(path), cfg.hostDevice.originalName, nic))
  }

  /** The first half of a restore that finds the NIC away: rename it and move it to the host namespace. */
  method BringHome(kernel: Netlink, path: string, h: HostDeviceState, attachedIf: string)
    returns (r: Option<nat>, ghost touched: Option<nat>)
    requires kernel.Valid()
    modifies kernel`links, kernel`failures
    ensures kernel.Valid()
    ensures touched.None? ==> r.None? && kernel.links == old(kernel.links)
    ensures touched.Some? ==>
              var i := touched.value;
              && i in old(kernel.links) && Answers(old(kernel.links[i]), path, h.originalName, h.originalMAC, attachedIf)
              && old(kernel.links[i].ns) == PodNs(path)
              && OnlyChanges(old(kernel.links), kernel.links, i)
              && Underway(old(kernel.links[i]), kernel.links[i], h)
              && kernel.links[i].mac == old(kernel.links[i].mac) && kernel.links[i].mtu == old(kernel.links[i].mtu)
              && (r.Some? ==> r.value == i && kernel.links[i].ns == Host && kernel.links[i].name == h.originalName)
    ensures kernel.failures >= old(kernel.failures)
    ensures kernel.failures == old(kernel.failures)
            && (exists i :: i in old(kernel.links) && FoundInPod(old(kernel.links[i]), path, h, attachedIf)) ==>
              touched.Some?
    ensures kernel.failures == old(kernel.failures) && touched.Some?
            && !NameTaken(old(kernel.links), PodNs(path), h.originalName, touched.value)
            && !NameTaken(old(kernel.links), Host, h.originalName, touched.value) ==>
              r.Some?
  {
    r, touched := None, None;
    var found := kernel.FindLink(PodNs(path), attachedIf, h.originalMAC);
    if found.None? {
      return;
    }
    var i := found.value;
    touched := Some(i);
    var ok := kernel.SetDown(i);
    if !ok {
      return;
    }
    ok := Rename(kernel, i, h.originalName);
    if !ok {
      return;
    }
    ok := kernel.SetNs(i, Host);
    if !ok {
      return;
    }
    r := kernel.LinkByName(Host, h.originalName);
    assert r.Some? ==> r.value == i;
  }

  /** restoreHostDevice. An empty path stands for a namespace that is not available. Whatever link is
      touched answered to the record; on success that link is home and exactly as saved. When nothing stands in
      the way and no call fails, it succeeds on the NIC, wherever that is. */
  method RestoreHostDevice(kernel: Netlink, path: string, cfg: DeviceConfig)
    returns (ok: bool, cfg': DeviceConfig, ghost touched: Option<nat>)
    requires kernel.Valid() && (cfg.hostDevice != null ==> WellSaved(cfg.hostDevice))
    modifies kernel, cfg.hostDevice
    ensures kernel.Valid()
    ensures old(kernel.undeleted) ==> kernel.undeleted
    ensures cfg.hostDevice == null || old(cfg.hostDevice.restored) ==>
              ok && cfg' == cfg && touched == None && kernel.undeleted == old(kernel.undeleted)
    ensures touched.None? ==> kernel.links == old(kernel.links)
    ensures touched.Some? ==>
              var i := touched.value;
              && i in old(kernel.links) && OnlyChanges(old(kernel.links), kernel.links, i)
              && cfg.hostDevice != null
              && AnswersTo(old(kernel.links[i]), path, cfg)
              && (old(kernel.links[i].ns) == Host || (path != "" && old(kernel.links[i].ns) == PodNs(path)))
              && Underway(old(kernel.links[i]), kernel.links[i], cfg.hostDevice)
    ensures cfg.hostDevice != null ==> cfg.hostDevice.restored == ok
    ensures cfg.hostDevice != null && !old(cfg.hostDevice.restored) && ok ==>
              && cfg' == cfg.(attachedIf := "", lifecycle := "Restored")
              && touched.Some? && kernel.links[touched.value].ns == Host
              && (!kernel.undeleted ==>
                    kernel.links[touched.value] == SavedLink(old(kernel.links[touched.value]).(ns := Host), cfg.hostDevice))
    ensures !ok ==> cfg' == cfg && kernel.undeleted == old(kernel.undeleted)
    ensures kernel.failures >= old(kernel.failures)
    ensures kernel.failures == old(kernel.failures) ==> kernel.undeleted == old(kernel.undeleted)
    ensures cfg.hostDevice != null && !old(cfg.hostDevice.restored) && kernel.failures == old(kernel.failures) ==>
              forall nic: nat :: old(Restorable(kernel.links, path, cfg, nic)) ==> ok && touched == Some(nic)
  {
    cfg', touched := cfg, None;
    if cfg.hostDevice == null || cfg.hostDevice.restored {
      return true, cfg, None;
    }
    ghost var was := kernel.undeleted;
    var h: HostDeviceState := cfg.hostDevice;
    var found := kernel.FindLink(Host, h.originalName, h.originalMAC);
    if found.None? {
      if path == "" {
        return false, cfg, None;
      }
      found, touched := BringHome(kernel, path, h, cfg.attachedIf);
      if found.None? {
        return false, cfg, touched;
      }
    }
    touched := found;
    ok := RestoreLinkState(kernel, found.value, h);
    if !ok {
      kernel.undeleted := was;
      return;
    }
    h.restored := true;
    cfg' := cfg.(attachedIf := "", lifecycle := "Restored");
  }

  /** When nothing answers to the record, every restore fails and changes nothing, however often it is tried. */
  method RestoreInVain(kernel: Netlink, path: string, cfg: DeviceConfig, attempts: nat) returns (ok: bool, cfg': DeviceConfig)
    requires kernel.Valid() && cfg.hostDevice != null && WellSaved(cfg.hostDevice) && !cfg.hostDevice.restored
    requires forall i :: i in kernel.links ==> !AnswersTo(kernel.links[i], path, cfg)
    modifies kernel, cfg.hostDevice
    ensures !ok && cfg' == cfg && kernel.links == old(kernel.links) && !cfg.hostDevice.restored
  {
    ok, cfg' := false, cfg;
    for n := 0 to attempts
      invariant !ok && cfg' == cfg && kernel.links == old(kernel.links) && !cfg.hostDevice.restored
    {
      ghost var touched;
      ok, cfg', touched := RestoreHostDevice(kernel, path, cfg);
    }
  }

  /** After a failed restore the NIC is found again unless it was renamed and left in the pod, and the pod had
      changed its hardware address. */
  lemma FoundAgain(before: Link, after: Link, path: string, cfg: DeviceConfig)
    requires cfg.hostDevice != null && before.ns == PodNs(path) && before.name == cfg.attachedIf != ""
    requires Underway(before, after, cfg.hostDevice)
    ensures !AnswersTo(after, path, cfg)
            <==> after.ns == PodNs(path) && after.name != cfg.attachedIf
                 && (cfg.hostDevice.originalMAC == "" || after.mac != cfg.hostDevice.originalMAC)
  {
  }

  // ---------------------------------------------------------------- attach

  method SetMtuIfAsked(kernel: Netlink, i: nat, mtu: int) returns (ok: bool)
    requires kernel.Valid() && i in kernel.links
    modifies kernel`links, kernel`failures
    ensures kernel.Valid() && OnlyChanges(old(kernel.links), kernel.links, i)
    ensures kernel.links[i] == old(kernel.links[i]).(mtu := kernel.links[i].mtu)
    ensures ok && mtu > 0 ==> kernel.links[i].mtu == mtu
    ensures kernel.failures == old(kernel.failures) + (if ok then 0 else 1)
  {
    if mtu > 0 && mtu != kernel.links[i].mtu {
      ok := kernel.SetMtu(i, mtu);
    } else {
      ok := true;
    }
  }

  /** What a link that arrives under this name is to be called. */
  function NameInPod(cfg: DeviceConfig, name: string): string {
    if cfg.interfaceName != "" then cfg.interfaceName else name
  }

  /** Inside the pod: rename, set the MTU, add the addresses, bring up. */
  method ConfigureLink(kernel: Netlink, i: nat, cfg: DeviceConfig) returns (ok: bool)
    requires kernel.Valid() && i in kernel.links
    modifies kernel`links, kernel`failures
    ensures kernel.Valid() && OnlyChanges(old(kernel.links), kernel.links, i)
    ensures kernel.links[i].ns == old(kernel.links[i].ns) && kernel.links[i].mac == old(kernel.links[i].mac)
    ensures kernel.links[i].name == old(kernel.links[i].name) || kernel.links[i].name == cfg.interfaceName
    ensures ok ==> kernel.links[i].name == (if cfg.interfaceName != "" then cfg.interfaceName else old(kernel.links[i].name))
    ensures ok ==> kernel.links[i].up && (cfg.mtu > 0 ==> kernel.links[i].mtu == cfg.mtu)
    ensures ok ==> Carries(kernel.links[i].addrs, cfg.addresses)
    ensures kernel.failures >= old(kernel.failures)
    ensures kernel.failures == old(kernel.failures)
            && !NameTaken(old(kernel.links), old(kernel.links[i].ns), NameInPod(cfg, old(kernel.links[i].name)), i) ==>
              ok
  {
    ok := Rename(kernel, i, if cfg.interfaceName != "" then cfg.interfaceName else kernel.links[i].name);
    if !ok {
      return;
    }
    ok := ConfigureRenamed(kernel, i, cfg);
  }

  method ConfigureRenamed(kernel: Netlink, i: nat, cfg: DeviceConfig) returns (ok: bool)
    requires kernel.Valid() && i in kernel.links
    modifies kernel`links, kernel`failures
    ensures kernel.Valid() && OnlyChanges(old(kernel.links), kernel.links, i)
    ensures kernel.links[i] == old(kernel.links[i]).(mtu := kernel.links[i].mtu, addrs := kernel.links[i].addrs, up := kernel.links[i].up)
    ensures ok ==> kernel.links[i].up && (cfg.mtu > 0 ==> kernel.links[i].mtu == cfg.mtu) && Carries(kernel.links[i].addrs, cfg.addresses)
    ensures kernel.failures == old(kernel.failures) + (if ok then 0 else 1)
  {
    ok := SetMtuIfAsked(kernel, i, cfg.mtu);
    if !ok {
      return;
    }
    ok := AddAddresses(kernel, i, cfg.addresses);
    if !ok {
      return;
    }
    ok := kernel.SetUp(i);
  }

  /** The link is in the pod under this name, and no other has the name it is to get. */
  ghost predicate Arrived(links: Links, path: string, name: string, cfg: DeviceConfig, i: nat)
    requires i in links
  {
    links[i].ns == PodNs(path) && links[i].name == name && !NameTaken(links, PodNs(path), NameInPod(cfg, name), i)
  }

  method ConfigureInPod(kernel: Netlink, path: string, cfg: DeviceConfig, h: HostDeviceState)
    returns (ok: bool, name: string, ghost touched: Option<nat>)
    requires kernel.Valid()
    modifies kernel`links, kernel`failures
    ensures kernel.Valid()
    ensures touched.None? ==> !ok && kernel.links == old(kernel.links)
    ensures touched.Some? ==>
              var i := touched.value;
              && i in old(kernel.links) && OnlyChanges(old(kernel.links), kernel.links, i)
              && ((old(kernel.links[i].ns) == PodNs(path) && old(kernel.links[i].name) == h.originalName)
                  || (h.originalMAC != "" && old(kernel.links[i].mac) == h.originalMAC))
              && kernel.links[i].ns == old(kernel.links[i].ns) && kernel.links[i].mac == old(kernel.links[i].mac)
              && (kernel.links[i].name == old(kernel.links[i].name) || kernel.links[i].name == cfg.interfaceName)
              && (ok ==> name == kernel.links[i].name && kernel.links[i].up
                         && name == (if cfg.interfaceName != "" then cfg.interfaceName else old(kernel.links[i].name))
                         && (cfg.mtu > 0 ==> kernel.links[i].mtu == cfg.mtu) && Carries(kernel.links[i].addrs, cfg.addresses))
    ensures kernel.failures >= old(kernel.failures)
    ensures kernel.failures == old(kernel.failures) && h.originalName != "" ==>
              forall i :: i in old(kernel.links) && Arrived(old(kernel.links), path, h.originalName, cfg, i) ==> ok && touched == Some(i)
  {
    ok, name, touched := false, "", None;
    var found := kernel.FindLink(PodNs(path), h.originalName, h.originalMAC);
    if found.None? {
      return;
    }
    touched := found;
    ok := ConfigureLink(kernel, found.value, cfg);
    if ok {
      name := kernel.links[found.value].name;
    }
  }

  /** The link is at home under this name, and no other has the name in the pod. */
  ghost predicate Waits(links: Links, path: string, name: string, i: nat)
    requires i in links
  {
    links[i].ns == Host && links[i].name == name && !NameTaken(links, PodNs(path), name, i)
  }

  /** Of what has gone wrong, one thing explains all: a name was taken and no call has failed, or none was and one call has. */
  predicate OneThing(before: nat, after: nat, taken: bool) {
    after == before + (if taken then 0 else 1)
  }

  /** The steps of an attach up to the move; a move that fails is followed by an attempt to undo the rest. */
  method MoveIntoPod(kernel: Netlink, path: string, h: HostDeviceState) returns (moved: bool, ghost touched: Option<nat>)
    requires kernel.Valid() && WellSaved(h)
    modifies kernel
    ensures kernel.Valid()
    ensures old(kernel.undeleted) ==> kernel.undeleted
    ensures touched.None? ==> !moved && kernel.links == old(kernel.links)
    ensures touched.Some? ==>
              var i := touched.value;
              && i in old(kernel.links) && old(kernel.links[i].ns) == Host && old(kernel.links[i].name) == h.originalName
              && OnlyChanges(old(kernel.links), kernel.links, i)
              && kernel.links[i].ns == (if moved then PodNs(path) else Host)
              && kernel.links[i].name == h.originalName
              && (kernel.links[i].mac == old(kernel.links[i].mac) || (!moved && h.originalMAC != "" && kernel.links[i].mac == h.originalMAC))
    ensures kernel.failures >= old(kernel.failures)
    ensures kernel.failures == old(kernel.failures) ==> kernel.undeleted == old(kernel.undeleted)
    ensures kernel.failures == old(kernel.failures) ==>
              forall i :: i in old(kernel.links) && Waits(old(kernel.links), path, h.originalName, i) ==> moved && touched == Some(i)
    ensures !moved && touched.Some? && !kernel.undeleted
            && OneThing(old(kernel.failures), kernel.failures, NameTaken(old(kernel.links), PodNs(path), h.originalName, touched.value)) ==>
              kernel.links[touched.value] == old(kernel.links[touched.value])
              || kernel.links[touched.value] == SavedLink(old(kernel.links[touched.value]), h)
  {
    moved, touched := false, None;
    var found := kernel.LinkByName(Host, h.originalName);
    if found.None? {
      return;
    }
    var i := found.value;
    touched := Some(i);
    var refused: bool := *;  // the PCI identity cannot be confirmed, or the namespace not be opened
    if refused {
      kernel.failures := kernel.failures + 1;
      return;
    }
    var down := kernel.SetDown(i);
    if !down {
      return;
    }
    moved := kernel.SetNs(i, PodNs(path));
    if !moved {
      var ignored := RestoreLinkState(kernel, i, h);
    }
  }

  /** The NIC is at home under its name, nothing else answers to its record, and the names it passes through are free in the pod. */
  ghost predicate Attachable(links: Links, path: string, cfg: DeviceConfig, nic: nat)
    requires cfg.hostDevice != null
  {
    && Clear(links, path, cfg, nic) && cfg.hostDevice.originalName != "" && Waits(links, path, cfg.hostDevice.originalName, nic)
    && !NameTaken(links, PodNs(path), NameInPod(cfg, cfg.hostDevice.originalName), nic)
  }

  /** attachHostDevice. `moved` tells whether a link was moved into the pod. When nothing but the NIC
      answers to its record, only the NIC is touched, and a failure loses it exactly when it comes after
      the move while the record still said Restored on entry: the rollback then does nothing. A rollback that
      is completed leaves the NIC as saved, and it is completed if only one thing has gone wrong and the NIC has its saved
      hardware address. A failed move is undone. When nothing stands in the way and no call fails, the attach succeeds. */
  method AttachHostDevice(kernel: Netlink, path: string, cfg: DeviceConfig, ghost nic: nat)
    returns (ok: bool, cfg': DeviceConfig, moved: bool)
    requires kernel.Valid() && cfg.attachedIf == "" && (cfg.hostDevice != null ==> WellSaved(cfg.hostDevice))
    modifies kernel, cfg.hostDevice
    ensures kernel.Valid()
    ensures old(kernel.undeleted) ==> kernel.undeleted
    ensures cfg.hostDevice == null ==> !ok && !moved && cfg' == cfg && kernel.links == old(kernel.links)
    ensures ok ==> moved && !cfg.hostDevice.restored && cfg'.lifecycle == "Attached"
    ensures !moved && cfg.hostDevice != null ==> !ok && cfg.hostDevice.restored == old(cfg.hostDevice.restored) && cfg' == cfg
    ensures cfg.hostDevice != null && old(Clear(kernel.links, path, cfg, nic)) ==>
              AttachOutcome(old(kernel.links), kernel.links, path, cfg, cfg', nic, ok, moved,
                            old(cfg.hostDevice.restored), cfg.hostDevice.restored)
    ensures cfg.hostDevice != null && old(Clear(kernel.links, path, cfg, nic)) && moved && !ok && !old(cfg.hostDevice.restored)
            && cfg.hostDevice.restored && !kernel.undeleted ==>
              kernel.links[nic] == SavedLink(old(kernel.links[nic]).(mtu := kernel.links[nic].mtu), cfg.hostDevice)
    ensures kernel.failures >= old(kernel.failures)
    ensures cfg.hostDevice != null && kernel.failures == old(kernel.failures) && old(Attachable(kernel.links, path, cfg, nic)) ==> ok
    ensures cfg.hostDevice != null && old(Clear(kernel.links, path, cfg, nic)) && moved && !ok && !old(cfg.hostDevice.restored)
            && old(HasSavedMac(kernel.links[nic], cfg.hostDevice)) && path != ""
            && OneThing(old(kernel.failures), kernel.failures,
                        NameTaken(old(kernel.links), PodNs(path), NameInPod(cfg, cfg.hostDevice.originalName), nic)) ==>
              cfg.hostDevice.restored && kernel.links[nic].ns == Host
    ensures cfg.hostDevice != null && old(Clear(kernel.links, path, cfg, nic)) && !moved && !kernel.undeleted
            && OneThing(old(kernel.failures), kernel.failures, NameTaken(old(kernel.links), PodNs(path), cfg.hostDevice.originalName, nic)) ==>
              kernel.links[nic] == old(kernel.links[nic]) || kernel.links[nic] == SavedLink(old(kernel.links[nic]), cfg.hostDevice)
  {
    cfg', moved := cfg, false;
    if cfg.hostDevice == null {
      return false, cfg, false;
    }
    moved := MoveNic(kernel, path, cfg, nic);
    if !moved {
      return false, cfg, false;
    }
    ok, cfg' := ConfigureOrRollBack(kernel, path, cfg, nic);
  }

  /** The first half of an attach, for a NIC that nothing else is taken for. */
  method MoveNic(kernel: Netlink, path: string, cfg: DeviceConfig, ghost nic: nat) returns (moved: bool)
    requires kernel.Valid() && cfg.hostDevice != null && WellSaved(cfg.hostDevice)
    modifies kernel
    ensures kernel.Valid() && (old(kernel.undeleted) ==> kernel.undeleted)
    ensures old(Clear(kernel.links, path, cfg, nic)) ==>
              && OnlyChanges(old(kernel.links), kernel.links, nic) && AttachTouches(old(kernel.links[nic]), kernel.links[nic], path, cfg)
              && (moved ==> old(kernel.links[nic].ns) == Host && Moved(kernel.links, path, cfg, nic)
                            && kernel.links[nic].mac == old(kernel.links[nic].mac))
              && (!moved ==> kernel.links[nic].ns == old(kernel.links[nic].ns))
    ensures kernel.failures >= old(kernel.failures)
    ensures kernel.failures == old(kernel.failures) && old(Attachable(kernel.links, path, cfg, nic)) ==> moved
    ensures old(Clear(kernel.links, path, cfg, nic)) && !moved && !kernel.undeleted
            && OneThing(old(kernel.failures), kernel.failures, NameTaken(old(kernel.links), PodNs(path), cfg.hostDevice.originalName, nic)) ==>
              kernel.links[nic] == old(kernel.links[nic]) || kernel.links[nic] == SavedLink(old(kernel.links[nic]), cfg.hostDevice)
  {
    ghost var touched;
    moved, touched := MoveIntoPod(kernel, path, cfg.hostDevice);
    assert touched.Some? ==> AnswersTo(old(kernel.links)[touched.value], path, cfg);
  }

  predicate HasSavedMac(l: Link, h: HostDeviceState) {
    h.originalName != "" && h.originalMAC != "" && l.mac == h.originalMAC
  }

  /** The NIC has just been moved into the pod. */
  ghost predicate Moved(links: Links, path: string, cfg: DeviceConfig, nic: nat)
    requires cfg.hostDevice != null
  {
    Clear(links, path, cfg, nic) && links[nic].ns == PodNs(path) && links[nic].name == cfg.hostDevice.originalName
  }

  /** The steps of an attach after the move. */
  method ConfigureOrRollBack(kernel: Netlink, path: string, cfg: DeviceConfig, ghost nic: nat) returns (ok: bool, cfg': DeviceConfig)
    requires kernel.Valid() && cfg.attachedIf == "" && cfg.hostDevice != null && WellSaved(cfg.hostDevice)
    modifies kernel, cfg.hostDevice
    ensures kernel.Valid()
    ensures old(kernel.undeleted) ==> kernel.undeleted
    ensures ok ==> !cfg.hostDevice.restored && cfg'.lifecycle == "Attached"
    ensures old(Moved(kernel.links, path, cfg, nic)) ==>
              InPodOutcome(old(kernel.links), kernel.links, path, cfg, cfg', nic, ok,
                           old(cfg.hostDevice.restored), cfg.hostDevice.restored)
    ensures old(Moved(kernel.links, path, cfg, nic)) && !ok && !old(cfg.hostDevice.restored) && cfg.hostDevice.restored && !kernel.undeleted ==>
              nic in kernel.links
              && kernel.links[nic] == SavedLink(old(kernel.links[nic]).(ns := Host, mtu := kernel.links[nic].mtu), cfg.hostDevice)
    ensures kernel.failures >= old(kernel.failures)
    ensures kernel.failures == old(kernel.failures) && cfg.hostDevice.originalName != ""
            && nic in old(kernel.links) && old(Arrived(kernel.links, path, cfg.hostDevice.originalName, cfg, nic)) ==>
              ok
    ensures !ok && !old(cfg.hostDevice.restored) && path != "" && old(Moved(kernel.links, path, cfg, nic))
            && old(HasSavedMac(kernel.links[nic], cfg.hostDevice))
            && OneThing(old(kernel.failures), kernel.failures,
                        NameTaken(old(kernel.links), PodNs(path), NameInPod(cfg, cfg.hostDevice.originalName), nic)) ==>
              cfg.hostDevice.restored
  {
    var name;
    ok, name := ConfigureMoved(kernel, path, cfg, nic);
    if !ok {
      cfg' := RollBack(kernel, path, cfg, nic);
      return;
    }
    cfg.hostDevice.restored := false;
    cfg' := cfg.(attachedIf := name, lifecycle := "Attached");
  }

  method ConfigureMoved(kernel: Netlink, path: string, cfg: DeviceConfig, ghost nic: nat) returns (ok: bool, name: string)
    requires kernel.Valid() && cfg.attachedIf == "" && cfg.hostDevice != null
    modifies kernel`links, kernel`failures
    ensures kernel.Valid()
    ensures old(Moved(kernel.links, path, cfg, nic)) ==>
              && Clear(kernel.links, path, cfg, nic) && OnlyChanges(old(kernel.links), kernel.links, nic)
              && kernel.links[nic].ns == PodNs(path) && kernel.links[nic].mac == old(kernel.links[nic].mac)
              && (kernel.links[nic].name == old(kernel.links[nic].name) || kernel.links[nic].name == cfg.interfaceName)
              && (ok ==> name == kernel.links[nic].name == NameInPod(cfg, cfg.hostDevice.originalName) && kernel.links[nic].up
                         && (cfg.mtu > 0 ==> kernel.links[nic].mtu == cfg.mtu) && Carries(kernel.links[nic].addrs, cfg.addresses))
              && (path != "" && HasSavedMac(old(kernel.links[nic]), cfg.hostDevice) ==> Restorable(kernel.links, path, cfg, nic))
    ensures kernel.failures >= old(kernel.failures)
    ensures kernel.failures == old(kernel.failures) && cfg.hostDevice.originalName != ""
            && nic in old(kernel.links) && old(Arrived(kernel.links, path, cfg.hostDevice.originalName, cfg, nic)) ==>
              ok
  {
    ghost var touched;
    ok, name, touched := ConfigureInPod(kernel, path, cfg, cfg.hostDevice);
    if Moved(old(kernel.links), path, cfg, nic) {
      CanRollBack(old(kernel.links), kernel.links, path, cfg, nic);
    }
  }

  /** The rollback: a restore of the record. When nothing but the NIC answers to it, only the NIC is touched. */
  method RollBack(kernel: Netlink, path: string, cfg: DeviceConfig, ghost nic: nat) returns (cfg': DeviceConfig)
    requires kernel.Valid() && cfg.attachedIf == "" && cfg.hostDevice != null && WellSaved(cfg.hostDevice)
    modifies kernel, cfg.hostDevice
    ensures kernel.Valid() && (old(kernel.undeleted) ==> kernel.undeleted) && kernel.failures >= old(kernel.failures)
    ensures kernel.failures == old(kernel.failures) && old(Restorable(kernel.links, path, cfg, nic)) ==> cfg.hostDevice.restored
    ensures old(Clear(kernel.links, path, cfg, nic)) && old(kernel.links[nic].ns) == PodNs(path) ==>
              RolledBack(old(kernel.links), kernel.links, path, cfg, cfg', nic,
                         old(cfg.hostDevice.restored), cfg.hostDevice.restored, kernel.undeleted)
  {
    var undone;
    ghost var touched;
    undone, cfg', touched := RestoreHostDevice(kernel, path, cfg);
    assert cfg.hostDevice != null;
  }

  /** A NIC that has its hardware address is found by it wherever in the pod the attach has stopped. */
  lemma CanRollBack(before: Links, after: Links, path: string, cfg: DeviceConfig, nic: nat)
    requires cfg.hostDevice != null && nic in before && OnlyChanges(before, after, nic) && ValidLinks(before)
    requires after[nic].ns == before[nic].ns && after[nic].mac == before[nic].mac
    ensures path != "" && Clear(before, path, cfg, nic) && HasSavedMac(before[nic], cfg.hostDevice)
            && before[nic].ns == PodNs(path) && before[nic].name == cfg.hostDevice.originalName ==>
              Restorable(after, path, cfg, nic)
  {
  }

  ghost predicate RolledBack(before: Links, after: Links, path: string, cfg: DeviceConfig, cfg': DeviceConfig, nic: nat,
                             wasRestored: bool, isRestored: bool, undeleted: bool)
    requires cfg.hostDevice != null && nic in before
  {
    var h := cfg.hostDevice;
    && OnlyChanges(before, after, nic)
    && (after[nic].mac == before[nic].mac || (h.originalMAC != "" && after[nic].mac == h.originalMAC))
    && ( || (after[nic].ns == Host && after[nic].name == h.originalName)
         || (after[nic].ns == PodNs(path) && (after[nic].name == h.originalName || after[nic].name == before[nic].name)))
    && (after[nic].ns != Host && isRestored <==> wasRestored)
    && cfg' == (if isRestored && !wasRestored then cfg.(attachedIf := "", lifecycle := "Restored") else cfg)
    && (isRestored && !wasRestored && !undeleted ==> after[nic] == SavedLink(before[nic].(ns := Host), h))
  }

  ghost predicate InPodOutcome(before: Links, after: Links, path: string, cfg: DeviceConfig, cfg': DeviceConfig,
                               nic: nat, ok: bool, wasRestored: bool, isRestored: bool)
    requires cfg.hostDevice != null && nic in before
  {
    var h := cfg.hostDevice;
    && OnlyChanges(before, after, nic)
    && (after[nic].mac == before[nic].mac || (h.originalMAC != "" && after[nic].mac == h.originalMAC))
    && ( || (after[nic].ns == Host && after[nic].name == h.originalName)
         || (after[nic].ns == PodNs(path) && (after[nic].name == h.originalName || after[nic].name == cfg.interfaceName)))
    && (ok ==>
          && after[nic].ns == PodNs(path) && after[nic].up && after[nic].mac == before[nic].mac
          && after[nic].name == (if cfg.interfaceName != "" then cfg.interfaceName else h.originalName)
          && (cfg.mtu > 0 ==> after[nic].mtu == cfg.mtu) && Carries(after[nic].addrs, cfg.addresses)
          && cfg' == cfg.(attachedIf := after[nic].name, lifecycle := "Attached"))
    && (!ok ==> (after[nic].ns != Host && isRestored <==> wasRestored))
    && (!ok && !isRestored ==> cfg' == cfg)
    && (!ok && isRestored ==> cfg' == if wasRestored then cfg else cfg.(attachedIf := "", lifecycle := "Restored"))
  }

  /** The names and hardware addresses an attach may leave on the NIC. */
  ghost predicate AttachTouches(before: Link, after: Link, path: string, cfg: DeviceConfig)
    requires cfg.hostDevice != null
  {
    var h := cfg.hostDevice;
    after == before
    || ( && before.ns == Host && before.name == h.originalName
         && (after.mac == before.mac || (h.originalMAC != "" && after.mac == h.originalMAC))
         && ( || (after.ns == Host && after.name == h.originalName)
              || (after.ns == PodNs(path) && (after.name == h.originalName || after.name == cfg.interfaceName))))
  }

  /** Without a move the NIC stays where it was; after one, a success leaves it configured in the pod,
      and a failure leaves it lost exactly when the record said Restored on entry. */
  ghost predicate AttachOutcome(before: Links, after: Links, path: string, cfg: DeviceConfig, cfg': DeviceConfig,
                                nic: nat, ok: bool, moved: bool, wasRestored: bool, isRestored: bool)
    requires cfg.hostDevice != null && nic in before
  {
    && OnlyChanges(before, after, nic)
    && AttachTouches(before[nic], after[nic], path, cfg)
    && (!moved ==> after[nic].ns == before[nic].ns)
    && (moved ==> before[nic].ns == Host && InPodOutcome(before, after, path, cfg, cfg', nic, ok, wasRestored, isRestored))
  }
}
