/** The records of lent NICs, over values: which NIC each is of, whether lookups can mistake another link for it,
    and whether every NIC that is away is remembered. */
module NodeRecords {
  import opened Text
  import opened NodeStore
  import opened Kernel
  import opened HostDevice

  datatype Slot = Slot(pod: string, key: string)

  predicate Stored(pods: map<string, PodConfig>, s: Slot) {
    s.pod in pods && s.key in pods[s.pod].devices
  }

  function Rec(pods: map<string, PodConfig>, s: Slot): DeviceConfig
    requires Stored(pods, s)
  {
    pods[s.pod].devices[s.key]
  }

  predicate HasNic(pods: map<string, PodConfig>, s: Slot) {
    Stored(pods, s) && Rec(pods, s).hostDevice != null
  }

  function State(pods: map<string, PodConfig>, s: Slot): HostDeviceState
    requires HasNic(pods, s)
  {
    Rec(pods, s).hostDevice
  }

  function Path(pods: map<string, PodConfig>, s: Slot): string
    requires Stored(pods, s)
  {
    pods[s.pod].netNS
  }

  // ---------------------------------------------------------------- the invariant, part by part

  /** Every record of a NIC is a host-device record made from a snapshot of it. */
  ghost predicate RecordsMade(pods: map<string, PodConfig>, nicOf: map<HostDeviceState, nat>, nics: set<nat>) {
    forall s :: HasNic(pods, s) ==>
      && State(pods, s) in nicOf && nicOf[State(pods, s)] in nics && WellSaved(State(pods, s))
      && Rec(pods, s).netType == HOST_DEVICE && NamedAsAsked(Rec(pods, s))
  }

  predicate NamedAsAsked(cfg: DeviceConfig) {
    cfg.interfaceName != "" && (cfg.attachedIf == "" || cfg.attachedIf == cfg.interfaceName)
  }

  /** Two pods whose namespaces are known and the same; before its sandbox has started, a pod's is not known. */
  predicate Shared(path: string, path': string) {
    path == path' && path != ""
  }

  /** Two records are of different NICs, and in one namespace neither NIC's original name is asked for by the other. */
  ghost predicate Apart(c: DeviceConfig, d: DeviceConfig, shared: bool)
    requires c.hostDevice != null && d.hostDevice != null
  {
    && c.hostDevice.originalName != d.hostDevice.originalName
    && (c.hostDevice.originalMAC != "" ==> c.hostDevice.originalMAC != d.hostDevice.originalMAC)
    && (shared ==> c.hostDevice.originalName != d.interfaceName)
  }

  /** No NIC has two records. */
  ghost predicate NicsApart(pods: map<string, PodConfig>, nicOf: map<HostDeviceState, nat>)
    requires forall s :: HasNic(pods, s) ==> State(pods, s) in nicOf
  {
    forall s, t :: HasNic(pods, s) && HasNic(pods, t) && s != t ==> nicOf[State(pods, s)] != nicOf[State(pods, t)]
  }

  ghost predicate RecordsApart(pods: map<string, PodConfig>, nicOf: map<HostDeviceState, nat>)
    requires forall s :: HasNic(pods, s) ==> State(pods, s) in nicOf
  {
    forall s, t :: HasNic(pods, s) && HasNic(pods, t) && s != t ==>
      && nicOf[State(pods, s)] != nicOf[State(pods, t)]
      && Apart(Rec(pods, s), Rec(pods, t), Shared(Path(pods, s), Path(pods, t)))
  }

  ghost predicate AllClear(pods: map<string, PodConfig>, nicOf: map<HostDeviceState, nat>, links: Links)
    requires forall s :: HasNic(pods, s) ==> State(pods, s) in nicOf
  {
    forall s :: HasNic(pods, s) ==> Clear(links, Path(pods, s), Rec(pods, s), nicOf[State(pods, s)])
  }

  /** Some record will bring this NIC home. */
  ghost predicate Remembered(pods: map<string, PodConfig>, nicOf: map<HostDeviceState, nat>, flags: map<HostDeviceState, bool>, nic: nat) {
    exists s :: RemembersIn(pods, nicOf, flags, nic, s)
  }

  ghost predicate RemembersIn(pods: map<string, PodConfig>, nicOf: map<HostDeviceState, nat>, flags: map<HostDeviceState, bool>,
                              nic: nat, s: Slot) {
    && HasNic(pods, s) && State(pods, s) in nicOf && nicOf[State(pods, s)] == nic
    && State(pods, s) in flags && !flags[State(pods, s)]
  }

  ghost predicate AllRemembered(pods: map<string, PodConfig>, nicOf: map<HostDeviceState, nat>, flags: map<HostDeviceState, bool>,
                                nics: set<nat>, links: Links) {
    forall i :: i in nics && i in links && links[i].ns != Host ==> Remembered(pods, nicOf, flags, i)
  }

  /** The same slots hold the same NICs for the same claims in the same namespaces. */
  ghost predicate SameNics(pods: map<string, PodConfig>, pods': map<string, PodConfig>) {
    && (forall t :: HasNic(pods', t) <==> HasNic(pods, t))
    && (forall t :: HasNic(pods, t) ==>
          State(pods', t) == State(pods, t) && Path(pods', t) == Path(pods, t) && Rec(pods', t).claimUID == Rec(pods, t).claimUID)
  }

  /** The NIC is in its pod under the name it is attached by. */
  ghost predicate Held(pods: map<string, PodConfig>, nicOf: map<HostDeviceState, nat>, links: Links, t: Slot)
    requires HasNic(pods, t) && State(pods, t) in nicOf
  {
    var nic := nicOf[State(pods, t)];
    nic in links && links[nic].ns == PodNs(Path(pods, t)) && links[nic].name == Rec(pods, t).attachedIf
  }

  /** Whoever is attached under the name that the record in slot `s` asks for is there and keeps the name. */
  ghost predicate NameGuarded(pods: map<string, PodConfig>, nicOf: map<HostDeviceState, nat>, links: Links, s: Slot)
    requires HasNic(pods, s) && forall t :: HasNic(pods, t) ==> State(pods, t) in nicOf
  {
    forall t :: HasNic(pods, t) && t != s && Shared(Path(pods, s), Path(pods, t)) && Rec(pods, t).attachedIf == Rec(pods, s).interfaceName
      ==> Held(pods, nicOf, links, t)
  }

  /** A restore that looks for the NIC at this path finds no other, and leaves it under no name another is found by there. */
  ghost predicate ClearAt(pods: map<string, PodConfig>, nicOf: map<HostDeviceState, nat>, links: Links, s: Slot, path: string)
    requires HasNic(pods, s) && State(pods, s) in nicOf
  {
    && Clear(links, path, Rec(pods, s), nicOf[State(pods, s)])
    && forall t :: HasNic(pods, t) && t != s && Path(pods, t) == path ==> State(pods, s).originalName != Rec(pods, t).interfaceName
  }

  // ---------------------------------------------------------------- one NIC changes, the others stay clear

  lemma AttachKeepsClear(before: Links, after: Links, i: nat, path: string, cfg: DeviceConfig,
                         path': string, cfg': DeviceConfig, nic': nat)
    requires cfg.hostDevice != null && cfg'.hostDevice != null && i in before && nic' != i
    requires OnlyChanges(before, after, i) && AttachTouches(before[i], after[i], path, cfg)
    requires Clear(before, path', cfg', nic') && Apart(cfg, cfg', Shared(path, path')) && NamedAsAsked(cfg')
    requires ValidLinks(after) && path != ""
    requires path == path' && cfg'.attachedIf == cfg.interfaceName ==> before[nic'].ns == PodNs(path) && before[nic'].name == cfg'.attachedIf
    ensures Clear(after, path', cfg', nic')
  {
  }

  lemma OwnStaysClear(before: Links, after: Links, path: string, cfg: DeviceConfig, cfg': DeviceConfig, nic: nat)
    requires cfg.hostDevice != null && cfg'.hostDevice == cfg.hostDevice
    requires Clear(before, path, cfg, nic) && OnlyChanges(before, after, nic)
    requires cfg'.attachedIf == cfg.attachedIf || cfg'.attachedIf == ""
    ensures Clear(after, path, cfg', nic)
  {
  }

  lemma AttachedIsClear(links: Links, path: string, cfg: DeviceConfig, cfg': DeviceConfig, nic: nat)
    requires ValidLinks(links) && cfg.hostDevice != null && cfg'.hostDevice == cfg.hostDevice
    requires Clear(links, path, cfg, nic)
    requires links[nic].ns == PodNs(path) && cfg'.attachedIf == links[nic].name
    ensures Clear(links, path, cfg', nic)
  {
  }

  // ---------------------------------------------------------------- one record changes

  /** Only the record in slot `s` differs, and still holds the same NIC. */
  ghost predicate OnlyRecord(pods: map<string, PodConfig>, pods': map<string, PodConfig>, s: Slot) {
    && (forall t :: HasNic(pods', t) <==> HasNic(pods, t))
    && (forall t :: HasNic(pods, t) ==> State(pods', t) == State(pods, t) && Path(pods', t) == Path(pods, t))
    && (forall t :: HasNic(pods, t) && t != s ==> Rec(pods', t) == Rec(pods, t))
  }

  lemma WithDeviceOnlyRecord(pods: map<string, PodConfig>, s: Slot, cfg: DeviceConfig)
    requires HasNic(pods, s) && cfg.hostDevice == State(pods, s)
    ensures OnlyRecord(pods, WithDevice(pods, s.pod, s.key, cfg), s)
    ensures Rec(WithDevice(pods, s.pod, s.key, cfg), s) == cfg
  {
  }

  /** A record that keeps its name, or is detached, stays a good record. */
  lemma RecordsStayMade(pods: map<string, PodConfig>, pods': map<string, PodConfig>, nicOf: map<HostDeviceState, nat>,
                        nics: set<nat>, s: Slot)
    requires RecordsMade(pods, nicOf, nics) && NicsApart(pods, nicOf) && HasNic(pods, s) && OnlyRecord(pods, pods', s)
    requires Rec(pods', s).netType == Rec(pods, s).netType && NamedAsAsked(Rec(pods', s))
    ensures RecordsMade(pods', nicOf, nics) && NicsApart(pods', nicOf)
  {
  }

  /** A record that is detached, or left alone, stays a good record among the others. */
  lemma RecordsStay(pods: map<string, PodConfig>, pods': map<string, PodConfig>, nicOf: map<HostDeviceState, nat>,
                    nics: set<nat>, s: Slot)
    requires RecordsMade(pods, nicOf, nics) && RecordsApart(pods, nicOf) && HasNic(pods, s) && OnlyRecord(pods, pods', s)
    requires Rec(pods', s).netType == Rec(pods, s).netType && Rec(pods', s).interfaceName == Rec(pods, s).interfaceName
    requires Rec(pods', s).attachedIf == Rec(pods, s).attachedIf || Rec(pods', s).attachedIf == ""
    ensures RecordsMade(pods', nicOf, nics) && RecordsApart(pods', nicOf)
  {
  }

  lemma RestoreStaysClear(pods: map<string, PodConfig>, pods': map<string, PodConfig>, nicOf: map<HostDeviceState, nat>,
                          nics: set<nat>, before: Links, after: Links, s: Slot, path: string)
    requires RecordsMade(pods, nicOf, nics) && RecordsApart(pods, nicOf) && AllClear(pods, nicOf, before)
    requires HasNic(pods, s) && OnlyRecord(pods, pods', s) && (path != "" ==> ClearAt(pods, nicOf, before, s, path))
    requires Rec(pods', s).attachedIf == Rec(pods, s).attachedIf || Rec(pods', s).attachedIf == ""
    requires var nic := nicOf[State(pods, s)];
             && OnlyChanges(before, after, nic) && nic in before
             && (after[nic] == before[nic]
                 || (Underway(before[nic], after[nic], State(pods, s))
                     && Searched(before[nic].ns, path)))
    ensures AllClear(pods', nicOf, after)
  {
  }

  /** What restoring the records in `slots` leaves alone: which NICs are held where, and the other records' flags. */
  ghost predicate OnlyThese(pods: map<string, PodConfig>, flags: map<HostDeviceState, bool>,
                            pods': map<string, PodConfig>, flags': map<HostDeviceState, bool>, slots: set<Slot>) {
    && SameNics(pods, pods') && flags'.Keys == flags.Keys
    && (forall s :: Stored(pods, s) ==> Stored(pods', s) && Rec(pods', s).claimUID == Rec(pods, s).claimUID)
    && (forall s :: HasNic(pods, s) && State(pods, s) in flags && s !in slots ==> flags'[State(pods, s)] == flags[State(pods, s)])
    && (forall s :: HasNic(pods, s) && State(pods, s) in flags && flags[State(pods, s)] ==> flags'[State(pods, s)])
  }

  lemma OneSlotOnly(pods: map<string, PodConfig>, flags: map<HostDeviceState, bool>, pods': map<string, PodConfig>,
                    flags': map<HostDeviceState, bool>, nicOf: map<HostDeviceState, nat>, s: Slot)
    requires (forall t :: HasNic(pods, t) ==> State(pods, t) in nicOf) && NicsApart(pods, nicOf) && flags'.Keys == flags.Keys
    requires HasNic(pods, s) && State(pods, s) in flags && !flags[State(pods, s)] && OnlyRecord(pods, pods', s)
    requires pods' == pods || pods' == WithDevice(pods, s.pod, s.key, Rec(pods', s))
    requires Rec(pods', s).claimUID == Rec(pods, s).claimUID
    requires forall h :: h in flags && h != State(pods, s) ==> flags'[h] == flags[h]
    ensures OnlyThese(pods, flags, pods', flags', {s})
  {
    assert forall t :: HasNic(pods, t) && t != s ==> State(pods, t) != State(pods, s);
  }

  /** Links stay in their namespaces or come home. */
  ghost predicate OnlyHomeward(before: Links, after: Links) {
    after.Keys == before.Keys && forall i :: i in before ==> after[i].ns == before[i].ns || after[i].ns == Host
  }

  /** Every NIC that was newly reported restored is home. */
  ghost predicate RaisedAreHome(pods: map<string, PodConfig>, nicOf: map<HostDeviceState, nat>, flags: map<HostDeviceState, bool>,
                                flags': map<HostDeviceState, bool>, links: Links) {
    forall s :: HasNic(pods, s) && State(pods, s) in nicOf && State(pods, s) in flags && State(pods, s) in flags' ==>
      !flags[State(pods, s)] && flags'[State(pods, s)] ==> nicOf[State(pods, s)] in links && links[nicOf[State(pods, s)]].ns == Host
  }

  /** The same slots hold the same snapshots. */
  ghost predicate SameStates(pods: map<string, PodConfig>, pods': map<string, PodConfig>) {
    (forall t :: HasNic(pods', t) <==> HasNic(pods, t)) && forall t :: HasNic(pods, t) ==> State(pods', t) == State(pods, t)
  }

  /** When flags only go up and links only come home, the promise stands exactly if every NIC newly reported restored is home. */
  lemma PromiseAfterMany(pods: map<string, PodConfig>, pods': map<string, PodConfig>, nicOf: map<HostDeviceState, nat>,
                         flags: map<HostDeviceState, bool>, flags': map<HostDeviceState, bool>, nics: set<nat>, before: Links, after: Links)
    requires SameStates(pods, pods') && (forall t :: HasNic(pods, t) ==> State(pods, t) in nicOf && nicOf[State(pods, t)] in nics)
    requires NicsApart(pods, nicOf) && flags.Keys == nicOf.Keys == flags'.Keys && nics <= before.Keys
    requires forall t :: HasNic(pods, t) && flags[State(pods, t)] ==> flags'[State(pods, t)]
    requires OnlyHomeward(before, after) && AllRemembered(pods, nicOf, flags, nics, before)
    ensures AllRemembered(pods', nicOf, flags', nics, after) <==> RaisedAreHome(pods', nicOf, flags, flags', after)
  {
    if RaisedAreHome(pods', nicOf, flags, flags', after) {
      forall i | i in nics && i in after && after[i].ns != Host
        ensures Remembered(pods', nicOf, flags', i)
      {
        assert Remembered(pods, nicOf, flags, i);
        var t :| RemembersIn(pods, nicOf, flags, i, t);
        assert RemembersIn(pods', nicOf, flags', i, t);
      }
    }
    if AllRemembered(pods', nicOf, flags', nics, after) {
      forall s | HasNic(pods', s) && !flags[State(pods', s)] && flags'[State(pods', s)]
        ensures after[nicOf[State(pods', s)]].ns == Host
      {
        assert forall t :: HasNic(pods, t) && nicOf[State(pods, t)] == nicOf[State(pods, s)] ==> t == s;
        assert !Remembered(pods', nicOf, flags', nicOf[State(pods, s)]);
      }
    }
  }

  ghost predicate AllRestored(pods: map<string, PodConfig>, flags: map<HostDeviceState, bool>, slots: set<Slot>) {
    forall s :: s in slots && HasNic(pods, s) ==> State(pods, s) in flags && flags[State(pods, s)]
  }

  /** How far a loop over `slots` has come that has `left` still to do. */
  ghost predicate Progress(pods0: map<string, PodConfig>, flags0: map<HostDeviceState, bool>, pods: map<string, PodConfig>,
                           flags: map<HostDeviceState, bool>, slots: set<Slot>, left: set<Slot>, ok: bool) {
    && OnlyThese(pods0, flags0, pods, flags, slots)
    && (ok ==> forall s :: s in slots && s !in left && HasNic(pods, s) ==> State(pods, s) in flags && flags[State(pods, s)])
  }

  lemma OneMoreRestored(pods0: map<string, PodConfig>, flags0: map<HostDeviceState, bool>,
                        pods1: map<string, PodConfig>, flags1: map<HostDeviceState, bool>,
                        pods2: map<string, PodConfig>, flags2: map<HostDeviceState, bool>,
                        slots: set<Slot>, left: set<Slot>, s: Slot, ok: bool, saved: bool)
    requires Progress(pods0, flags0, pods1, flags1, slots, left, ok) && s in slots
    requires OnlyThese(pods1, flags1, pods2, flags2, {s}) && (saved ==> AllRestored(pods2, flags2, {s}))
    ensures Progress(pods0, flags0, pods2, flags2, slots, left - {s}, ok && saved)
  {
  }

  /** Looked for at this path, the NICs of these slots are not mistaken for each other or for another link. */
  ghost predicate AllReachable(pods: map<string, PodConfig>, nicOf: map<HostDeviceState, nat>, links: Links, slots: set<Slot>, path: string) {
    path != "" ==>
      && (forall s :: s in slots && HasNic(pods, s) ==> State(pods, s) in nicOf && ClearAt(pods, nicOf, links, s, path))
      && (forall s, t :: s in slots && t in slots && s != t && HasNic(pods, s) && HasNic(pods, t) ==>
            State(pods, s).originalName != Rec(pods, t).interfaceName)
  }

  lemma ReachableStays(pods: map<string, PodConfig>, pods': map<string, PodConfig>, nicOf: map<HostDeviceState, nat>, nics: set<nat>,
                       before: Links, after: Links, slots: set<Slot>, s: Slot, path: string)
    requires path != "" && AllReachable(pods, nicOf, before, slots, path) && s in slots
    requires RecordsMade(pods, nicOf, nics) && RecordsApart(pods, nicOf) && HasNic(pods, s) && OnlyRecord(pods, pods', s)
    requires Rec(pods', s).interfaceName == Rec(pods, s).interfaceName
    requires Rec(pods', s).attachedIf == Rec(pods, s).attachedIf || Rec(pods', s).attachedIf == ""
    requires var nic := nicOf[State(pods, s)];
             && OnlyChanges(before, after, nic) && nic in before
             && (after[nic] == before[nic]
                 || (Underway(before[nic], after[nic], State(pods, s)) && Searched(before[nic].ns, path)))
    ensures AllReachable(pods', nicOf, after, slots, path)
  {
    forall t | t in slots && HasNic(pods', t)
      ensures Clear(after, path, Rec(pods', t), nicOf[State(pods', t)])
    {
      assert HasNic(pods, t) && ClearAt(pods, nicOf, before, t, path);
      if t != s {
        assert nicOf[State(pods, t)] != nicOf[State(pods, s)];
        OtherStaysClear(before, after, nicOf[State(pods, s)], Rec(pods, s), path, Rec(pods, t), nicOf[State(pods, t)]);
      } else {
        OwnStaysClear(before, after, path, Rec(pods, s), Rec(pods', s), nicOf[State(pods, s)]);
      }
    }
  }

  /** A NIC on its way home does not come to answer to another's record whose names are apart from its own. */
  lemma OtherStaysClear(before: Links, after: Links, i: nat, cfg: DeviceConfig, path: string, other: DeviceConfig, nic: nat)
    requires cfg.hostDevice != null && other.hostDevice != null && i in before && nic != i && Clear(before, path, other, nic)
    requires OnlyChanges(before, after, i) && (after[i] == before[i] || Underway(before[i], after[i], cfg.hostDevice))
    requires Apart(cfg, other, true) && NamedAsAsked(other)
    ensures Clear(after, path, other, nic)
  {
  }

  // ---------------------------------------------------------------- restores that nothing stands in the way of

  /** Where the NIC of slot `s` is looked for: at the given path, else where the record's pod is, else at home only. */
  function SearchAt(pods: map<string, PodConfig>, s: Slot, at: string, searchPods: bool): string {
    if at != "" then at else if searchPods && s.pod in pods then pods[s.pod].netNS else ""
  }

  /** A restore of the record in slot `s` succeeds if its calls do. */
  ghost predicate Able(pods: map<string, PodConfig>, nicOf: map<HostDeviceState, nat>, links: Links, s: Slot, path: string) {
    HasNic(pods, s) && State(pods, s) in nicOf && Restorable(links, path, Rec(pods, s), nicOf[State(pods, s)])
  }

  /** A loop over the records in `slots`: which of them are counted on, where their NICs are looked for, and whose they are. */
  datatype Task = Task(slots: set<Slot>, able: set<Slot>, at: string, searchPods: bool, claim: string)

  /** Every record that is counted on is restored, or still to come and nothing in its way. */
  ghost predicate Awaited(pods: map<string, PodConfig>, nicOf: map<HostDeviceState, nat>, flags: map<HostDeviceState, bool>,
                          links: Links, task: Task, left: set<Slot>) {
    forall s :: s in task.able ==>
      && HasNic(pods, s) && State(pods, s) in flags
      && (flags[State(pods, s)] || (s in left && Able(pods, nicOf, links, s, SearchAt(pods, s, task.at, task.searchPods))))
  }

  ghost function AbleSlots(pods: map<string, PodConfig>, nicOf: map<HostDeviceState, nat>, links: Links,
                           slots: set<Slot>, at: string, searchPods: bool): set<Slot> {
    set s | s in slots && Able(pods, nicOf, links, s, SearchAt(pods, s, at, searchPods))
  }

  /** Nothing stands in the way of restoring those that are not restored yet. */
  ghost predicate DueAreAble(pods: map<string, PodConfig>, nicOf: map<HostDeviceState, nat>, flags: map<HostDeviceState, bool>, links: Links,
                             slots: set<Slot>, at: string, searchPods: bool) {
    AllRestored(pods, flags, slots - AbleSlots(pods, nicOf, links, slots, at, searchPods))
  }

  lemma AbleAreAwaited(pods: map<string, PodConfig>, nicOf: map<HostDeviceState, nat>, flags: map<HostDeviceState, bool>, links: Links,
                       slots: set<Slot>, at: string, searchPods: bool, claim: string)
    requires flags.Keys == nicOf.Keys
    ensures Awaited(pods, nicOf, flags, links, Task(slots, AbleSlots(pods, nicOf, links, slots, at, searchPods), at, searchPods, claim), slots)
  {
  }

  lemma NotedAsAble(pods: map<string, PodConfig>, pods': map<string, PodConfig>, nicOf: map<HostDeviceState, nat>, links: Links, slots: set<Slot>)
    requires SameRecords(pods, pods')
    ensures AbleSlots(pods, nicOf, links, slots, "", false) == AbleSlots(pods', nicOf, links, slots, "", false)
  {
  }

  /** A NIC on its way home, or left halfway there, does not come to stand in the way of another. */
  lemma AbleStays(pods: map<string, PodConfig>, pods': map<string, PodConfig>, nicOf: map<HostDeviceState, nat>,
                  before: Links, after: Links, s: Slot, t: Slot, path: string)
    requires (forall u :: HasNic(pods, u) ==> State(pods, u) in nicOf) && RecordsApart(pods, nicOf)
    requires HasNic(pods, s) && OnlyRecord(pods, pods', s) && t != s && Able(pods, nicOf, before, t, path)
    requires var nic := nicOf[State(pods, s)];
             && nic in before && OnlyChanges(before, after, nic)
             && (after[nic] == before[nic] || Underway(before[nic], after[nic], State(pods, s)))
             && (path == "" ==> after[nic].ns != PodNs(path) || after[nic] == before[nic])
    requires path != "" ==> Clear(after, path, Rec(pods, t), nicOf[State(pods, t)])
    ensures Able(pods', nicOf, after, t, path)
  {
    assert Apart(Rec(pods, s), Rec(pods, t), Shared(Path(pods, s), Path(pods, t)));
  }

  /** After a round of the loop, restored or not counted on, the others are awaited as before. */
  lemma AwaitedStays(pods: map<string, PodConfig>, flags: map<HostDeviceState, bool>, before: Links,
                     pods': map<string, PodConfig>, flags': map<HostDeviceState, bool>, after: Links,
                     nicOf: map<HostDeviceState, nat>, s: Slot, task: Task, left: set<Slot>)
    requires (forall u :: HasNic(pods, u) ==> State(pods, u) in nicOf) && RecordsApart(pods, nicOf)
    requires HasNic(pods, s) && OnlyRecord(pods, pods', s) && flags.Keys == nicOf.Keys == flags'.Keys
    requires var nic := nicOf[State(pods, s)];
             && nic in before && OnlyChanges(before, after, nic)
             && (after[nic] == before[nic] || (Underway(before[nic], after[nic], State(pods, s)) && before[nic].ns != PodNs("")))
    requires forall h :: h in flags && h != State(pods, s) ==> flags'[h] == flags[h]
    requires forall t :: t in task.able && HasNic(pods, t) ==>
               var path := SearchAt(pods, t, task.at, task.searchPods);
               path != "" ==> Clear(after, path, Rec(pods', t), nicOf[State(pods, t)])
    requires Awaited(pods, nicOf, flags, before, task, left) && (s in task.able ==> flags'[State(pods, s)])
    ensures Awaited(pods', nicOf, flags', after, task, left - {s})
  {
    forall t | t in task.able
      ensures flags'[State(pods', t)] || (t in left - {s} && Able(pods', nicOf, after, t, SearchAt(pods', t, task.at, task.searchPods)))
    {
      if t != s {
        assert nicOf[State(pods, t)] != nicOf[State(pods, s)];
        if !flags[State(pods, t)] {
          AbleStays(pods, pods', nicOf, before, after, s, t, SearchAt(pods, t, task.at, task.searchPods));
        }
      }
    }
  }

  // ---------------------------------------------------------------- attaching a pod's NICs

  /** What attaching a pod's NICs makes of one that was not attached: it is in the pod, up, under the name and with the
      addresses and MTU asked for, and its record says so. One that was attached is left alone. */
  ghost predicate Placed(was: DeviceConfig, now: DeviceConfig, before: Link, after: Link, path: string, restored: bool) {
    if was.attachedIf == "" then
      && now == was.(attachedIf := was.interfaceName, lifecycle := "Attached") && was.interfaceName != "" && !restored
      && after.ns == PodNs(path) && after.name == was.interfaceName && after.up && after.mac == before.mac
      && (was.mtu > 0 ==> after.mtu == was.mtu) && Carries(after.addrs, was.addresses)
    else now == was && after == before
  }

  datatype View = View(pods: map<string, PodConfig>, flags: map<HostDeviceState, bool>, links: Links)

  /** How far the attaching of a pod's NICs has come: those in `done` are placed, those in `loose` may be anywhere, and all
      others, their records and flags are as they were. */
  ghost predicate Attaching(v0: View, v: View, nicOf: map<HostDeviceState, nat>, done: set<Slot>, loose: set<Slot>, path: string) {
    && (forall s :: HasNic(v.pods, s) <==> HasNic(v0.pods, s))
    && forall s :: HasNic(v0.pods, s) && s !in loose ==>
         && State(v.pods, s) == State(v0.pods, s) && State(v0.pods, s) in nicOf
         && State(v0.pods, s) in v0.flags && State(v0.pods, s) in v.flags
         && var h := State(v0.pods, s);
            && nicOf[h] in v0.links && nicOf[h] in v.links
            && if s in done then Placed(Rec(v0.pods, s), Rec(v.pods, s), v0.links[nicOf[h]], v.links[nicOf[h]], path, v.flags[h])
               else Rec(v.pods, s) == Rec(v0.pods, s) && v.links[nicOf[h]] == v0.links[nicOf[h]] && v.flags[h] == v0.flags[h]
  }

  lemma AttachingOneMore(v0: View, v1: View, v2: View, nicOf: map<HostDeviceState, nat>, done: set<Slot>, s: Slot, path: string)
    requires Attaching(v0, v1, nicOf, done, {}, path) && s !in done
    requires Attaching(v1, v2, nicOf, {s}, {}, path)
    ensures Attaching(v0, v2, nicOf, done + {s}, {}, path)
  {
  }

  /** Whatever happens to one of the pod's NICs, nothing happens to those of others. */
  lemma AttachingElsewhere(v0: View, v1: View, v2: View, nicOf: map<HostDeviceState, nat>, done: set<Slot>, slots: set<Slot>, s: Slot, path: string)
    requires Attaching(v0, v1, nicOf, done, {}, path) && done <= slots && s in slots
    requires Attaching(v1, v2, nicOf, {}, {s}, path)
    ensures Attaching(v0, v2, nicOf, {}, slots, path)
  {
  }

  lemma AttachedAlready(v0: View, v: View, nicOf: map<HostDeviceState, nat>, done: set<Slot>, slots: set<Slot>, s: Slot, path: string)
    requires Attaching(v0, v, nicOf, done, {}, path) && s !in done && done <= slots
    ensures (HasNic(v.pods, s) ==> Rec(v.pods, s).attachedIf != "") ==> Attaching(v0, v, nicOf, done + {s}, {}, path)
    ensures Attaching(v0, v, nicOf, {}, slots, path)
  {
  }

  lemma AttachingLoosely(v0: View, v: View, nicOf: map<HostDeviceState, nat>, slots: set<Slot>, path: string)
    requires Attaching(v0, v, nicOf, slots, {}, path)
    ensures Attaching(v0, v, nicOf, {}, slots, path)
  {
  }

  /** Noting where the pod runs comes before, and changes nothing. */
  lemma AttachingNoted(v0: View, v1: View, v2: View, nicOf: map<HostDeviceState, nat>, done: set<Slot>, loose: set<Slot>, path: string)
    requires SameRecords(v0.pods, v1.pods) && v1.flags == v0.flags && v1.links == v0.links
    requires Attaching(v1, v2, nicOf, done, loose, path)
    ensures Attaching(v0, v2, nicOf, done, loose, path)
  {
  }

  lemma AttachingBegins(v: View, nicOf: map<HostDeviceState, nat>, nics: set<nat>, loose: set<Slot>, path: string)
    requires RecordsMade(v.pods, nicOf, nics) && nics <= v.links.Keys && v.flags.Keys == nicOf.Keys
    ensures Attaching(v, v, nicOf, {}, loose, path)
  {
  }

  lemma OneFewer(slots: set<Slot>, left: set<Slot>, s: Slot)
    requires s in left && left <= slots
    ensures slots - left + {s} == slots - (left - {s})
  {
  }

  /** The same pods are in the same namespaces with records under the same keys. */
  ghost predicate SameShape(pods: map<string, PodConfig>, pods': map<string, PodConfig>) {
    && pods'.Keys == pods.Keys
    && forall p :: p in pods ==> pods'[p].netNS == pods[p].netNS && pods'[p].devices.Keys == pods[p].devices.Keys
  }

  lemma WithDeviceSameShape(pods: map<string, PodConfig>, s: Slot, cfg: DeviceConfig)
    requires Stored(pods, s)
    ensures SameShape(pods, WithDevice(pods, s.pod, s.key, cfg))
  {
    assert pods[s.pod].devices[s.key := cfg].Keys == pods[s.pod].devices.Keys;
  }

  predicate Unattached(pods: map<string, PodConfig>, s: Slot) {
    Stored(pods, s) && Rec(pods, s).netType == HOST_DEVICE && Rec(pods, s).attachedIf == ""
  }

  /** Nothing stands in the way of attaching these, one after the other: each could be attached at once, and none asks for
      a name that another needs. */
  ghost predicate Ready(pods: map<string, PodConfig>, nicOf: map<HostDeviceState, nat>, links: Links, slots: set<Slot>) {
    && (forall s :: s in slots && Unattached(pods, s) ==>
          && HasNic(pods, s) && State(pods, s) in nicOf
          && HostDevice.Attachable(links, Path(pods, s), Rec(pods, s), nicOf[State(pods, s)]))
    && (forall s, t :: s in slots && t in slots && s != t && Unattached(pods, s) && Unattached(pods, t)
                       && HasNic(pods, s) && HasNic(pods, t) ==>
          Rec(pods, s).interfaceName != Rec(pods, t).interfaceName && Rec(pods, s).interfaceName != State(pods, t).originalName)
  }

  lemma FewerReady(pods: map<string, PodConfig>, nicOf: map<HostDeviceState, nat>, links: Links, slots: set<Slot>, s: Slot)
    requires Ready(pods, nicOf, links, slots) && s in slots
    ensures Ready(pods, nicOf, links, slots - {s}) && (Unattached(pods, s) ==> HasNic(pods, s))
  {
  }

  /** Attaching one of them leaves the others ready. */
  lemma ReadyStays(pods: map<string, PodConfig>, pods': map<string, PodConfig>, nicOf: map<HostDeviceState, nat>, nics: set<nat>,
                   before: Links, after: Links, slots: set<Slot>, s: Slot)
    requires RecordsMade(pods, nicOf, nics)
    requires NicsApart(pods, nicOf) && Ready(pods, nicOf, before, slots)
    requires s in slots && Unattached(pods, s) && HasNic(pods, s)
    requires HasNic(pods', s) && pods' == WithDevice(pods, s.pod, s.key, Rec(pods', s))
    requires forall t :: t in slots ==> t.pod == s.pod
    requires var nic := nicOf[State(pods, s)];
             && nic in before && OnlyChanges(before, after, nic) && after[nic].mac == before[nic].mac
             && after[nic].ns == PodNs(Path(pods, s)) && after[nic].name == Rec(pods, s).interfaceName
    ensures Ready(pods', nicOf, after, slots - {s})
  {
    forall t | t in slots - {s} && Unattached(pods', t)
      ensures Unattached(pods, t) && HasNic(pods, t) && State(pods, t) in nicOf && Rec(pods', t) == Rec(pods, t)
      ensures HasNic(pods', t) && State(pods', t) in nicOf && HostDevice.Attachable(after, Path(pods', t), Rec(pods', t), nicOf[State(pods', t)])
    {
      assert Unattached(pods, t) && Rec(pods', t) == Rec(pods, t) && Path(pods', t) == Path(pods, t);
      assert nicOf[State(pods, t)] != nicOf[State(pods, s)];
      assert Rec(pods, s).interfaceName != Rec(pods, t).interfaceName && Rec(pods, s).interfaceName != State(pods, t).originalName;
      StaysAttachable(before, after, nicOf[State(pods, s)], Path(pods, t), Rec(pods, t), nicOf[State(pods, t)]);
    }
  }

  lemma StaysAttachable(before: Links, after: Links, i: nat, path: string, cfg: DeviceConfig, nic: nat)
    requires cfg.hostDevice != null && HostDevice.Attachable(before, path, cfg, nic) && cfg.attachedIf == "" && nic != i
    requires i in before && OnlyChanges(before, after, i) && after[i].mac == before[i].mac && after[i].ns == PodNs(path)
    requires after[i].name != cfg.interfaceName && after[i].name != cfg.hostDevice.originalName && cfg.interfaceName != ""
    ensures HostDevice.Attachable(after, path, cfg, nic)
  {
  }

  // ---------------------------------------------------------------- records remember

  lemma SameRecordsRemember(pods: map<string, PodConfig>, pods': map<string, PodConfig>, nicOf: map<HostDeviceState, nat>,
                            flags: map<HostDeviceState, bool>, nics: set<nat>, links: Links, s: Slot)
    requires OnlyRecord(pods, pods', s) && AllRemembered(pods, nicOf, flags, nics, links)
    ensures AllRemembered(pods', nicOf, flags, nics, links)
  {
    forall i | i in nics && i in links && links[i].ns != Host
      ensures Remembered(pods', nicOf, flags, i)
    {
      var t :| RemembersIn(pods, nicOf, flags, i, t);
      assert RemembersIn(pods', nicOf, flags, i, t);
    }
  }

  /** When one record's NIC and flag change, and no other NIC moves except home, the promise stands exactly if that
      NIC is home or that flag is down. */
  lemma PromiseAfterOne(pods: map<string, PodConfig>, pods': map<string, PodConfig>, nicOf: map<HostDeviceState, nat>,
                        flags: map<HostDeviceState, bool>, flags': map<HostDeviceState, bool>, nics: set<nat>,
                        before: Links, after: Links, s: Slot)
    requires (forall t :: HasNic(pods, t) ==> State(pods, t) in nicOf) && flags.Keys == nicOf.Keys == flags'.Keys
    requires NicsApart(pods, nicOf) && HasNic(pods, s) && OnlyRecord(pods, pods', s)
    requires nics <= before.Keys == after.Keys && nicOf[State(pods, s)] in nics
    requires forall i :: i in before && i != nicOf[State(pods, s)] ==> after[i].ns == before[i].ns || after[i].ns == Host
    requires forall h :: h in flags && h != State(pods, s) ==> flags'[h] == flags[h]
    requires AllRemembered(pods, nicOf, flags, nics, before)
    ensures AllRemembered(pods', nicOf, flags', nics, after)
            <==> after[nicOf[State(pods, s)]].ns == Host || !flags'[State(pods, s)]
  {
    var h := State(pods, s);
    var nic := nicOf[h];
    forall i | i in nics && i != nic && after[i].ns != Host
      ensures Remembered(pods', nicOf, flags', i)
    {
      assert Remembered(pods, nicOf, flags, i);
      var t :| RemembersIn(pods, nicOf, flags, i, t);
      assert RemembersIn(pods', nicOf, flags', i, t);
    }
    if flags'[h] {
      assert forall t :: HasNic(pods, t) && nicOf[State(pods, t)] == nic ==> t == s;
      assert !Remembered(pods', nicOf, flags', nic);
    } else {
      assert RemembersIn(pods', nicOf, flags', nic, s);
    }
  }

  // ---------------------------------------------------------------- where a claim's NICs will end up

  /** Slot `s` holds NIC `i` for the claim, not yet restored. */
  ghost predicate Awaits(pods: map<string, PodConfig>, nicOf: map<HostDeviceState, nat>, flags: map<HostDeviceState, bool>,
                         claim: string, i: nat, s: Slot) {
    && HasNic(pods, s) && Rec(pods, s).claimUID == claim
    && State(pods, s) in nicOf && nicOf[State(pods, s)] == i && State(pods, s) in flags && !flags[State(pods, s)]
  }

  /** The link as it will be once the claim's NICs are home. */
  ghost function HomedLink(pods: map<string, PodConfig>, nicOf: map<HostDeviceState, nat>, flags: map<HostDeviceState, bool>,
                           links: Links, claim: string, i: nat): Link
    requires i in links
  {
    if s :| Awaits(pods, nicOf, flags, claim, i, s) then SavedLink(links[i].(ns := Host), State(pods, s)) else links[i]
  }

  ghost function HomedLinks(pods: map<string, PodConfig>, nicOf: map<HostDeviceState, nat>, flags: map<HostDeviceState, bool>,
                            links: Links, claim: string): Links {
    map i | i in links :: HomedLink(pods, nicOf, flags, links, claim, i)
  }

  lemma SoleAwaiting(pods: map<string, PodConfig>, nicOf: map<HostDeviceState, nat>, flags: map<HostDeviceState, bool>,
                     links: Links, claim: string, i: nat, s: Slot)
    requires forall t :: HasNic(pods, t) ==> State(pods, t) in nicOf
    requires RecordsApart(pods, nicOf) && Awaits(pods, nicOf, flags, claim, i, s) && i in links
    ensures HomedLink(pods, nicOf, flags, links, claim, i) == SavedLink(links[i].(ns := Host), State(pods, s))
  {
  }

  /** Restoring one of the claim's records, or failing to, does not change where its NICs will end up. */
  lemma RestoreKeepsDestination(pods: map<string, PodConfig>, flags: map<HostDeviceState, bool>, links: Links,
                                pods': map<string, PodConfig>, flags': map<HostDeviceState, bool>, links': Links,
                                nicOf: map<HostDeviceState, nat>, s: Slot, i: nat)
    requires (forall t :: HasNic(pods, t) ==> State(pods, t) in nicOf) && SameNics(pods, pods')
    requires RecordsApart(pods, nicOf) && RecordsApart(pods', nicOf)
    requires flags.Keys == nicOf.Keys == flags'.Keys && HasNic(pods, s) && !flags[State(pods, s)]
    requires forall h :: h in flags && h != State(pods, s) ==> flags'[h] == flags[h]
    requires var nic := nicOf[State(pods, s)];
             && nic in links && OnlyChanges(links, links', nic)
             && (links'[nic] == links[nic] || Underway(links[nic], links'[nic], State(pods, s)))
             && (flags'[State(pods, s)] ==> links'[nic] == SavedLink(links[nic].(ns := Host), State(pods, s)))
    requires i in links
    ensures var claim := Rec(pods, s).claimUID;
            HomedLink(pods', nicOf, flags', links', claim, i) == HomedLink(pods, nicOf, flags, links, claim, i)
  {
    var claim, h := Rec(pods, s).claimUID, State(pods, s);
    if i == nicOf[h] {
      assert Awaits(pods, nicOf, flags, claim, i, s);
      SoleAwaiting(pods, nicOf, flags, links, claim, i, s);
      if flags'[h] {
        assert forall t :: HasNic(pods', t) && nicOf[State(pods', t)] == i ==> t == s;
        assert forall t :: !Awaits(pods', nicOf, flags', claim, i, t);
      } else {
        assert Awaits(pods', nicOf, flags', claim, i, s);
        SoleAwaiting(pods', nicOf, flags', links', claim, i, s);
      }
    } else {
      assert forall t :: Awaits(pods', nicOf, flags', claim, i, t) <==> Awaits(pods, nicOf, flags, claim, i, t);
      if t :| Awaits(pods, nicOf, flags, claim, i, t) {
        SoleAwaiting(pods, nicOf, flags, links, claim, i, t);
        SoleAwaiting(pods', nicOf, flags', links', claim, i, t);
      }
    }
  }

  lemma HomedLinksKept(pods: map<string, PodConfig>, flags: map<HostDeviceState, bool>, links: Links,
                       pods': map<string, PodConfig>, flags': map<HostDeviceState, bool>, links': Links,
                       nicOf: map<HostDeviceState, nat>, s: Slot)
    requires (forall t :: HasNic(pods, t) ==> State(pods, t) in nicOf) && SameNics(pods, pods')
    requires RecordsApart(pods, nicOf) && RecordsApart(pods', nicOf)
    requires flags.Keys == nicOf.Keys == flags'.Keys && HasNic(pods, s) && !flags[State(pods, s)]
    requires forall h :: h in flags && h != State(pods, s) ==> flags'[h] == flags[h]
    requires var nic := nicOf[State(pods, s)];
             && nic in links && OnlyChanges(links, links', nic)
             && (links'[nic] == links[nic] || Underway(links[nic], links'[nic], State(pods, s)))
             && (flags'[State(pods, s)] ==> links'[nic] == SavedLink(links[nic].(ns := Host), State(pods, s)))
    ensures var claim := Rec(pods, s).claimUID;
            HomedLinks(pods', nicOf, flags', links', claim) == HomedLinks(pods, nicOf, flags, links, claim)
  {
    forall i | i in links
      ensures var claim := Rec(pods, s).claimUID;
              HomedLink(pods', nicOf, flags', links', claim, i) == HomedLink(pods, nicOf, flags, links, claim, i)
    {
      RestoreKeepsDestination(pods, flags, links, pods', flags', links', nicOf, s, i);
    }
    HomedLinksEqual(pods, flags, links, pods', flags', links', nicOf, Rec(pods, s).claimUID);
  }

  lemma HomedLinksEqual(pods: map<string, PodConfig>, flags: map<HostDeviceState, bool>, links: Links,
                        pods': map<string, PodConfig>, flags': map<HostDeviceState, bool>, links': Links,
                        nicOf: map<HostDeviceState, nat>, claim: string)
    requires links.Keys == links'.Keys
    requires forall i :: i in links ==> HomedLink(pods', nicOf, flags', links', claim, i) == HomedLink(pods, nicOf, flags, links, claim, i)
    ensures HomedLinks(pods', nicOf, flags', links', claim) == HomedLinks(pods, nicOf, flags, links, claim)
  {
  }

  /** Changing a record of the claim does not change what is left without the claim. */
  lemma WithoutClaimUnmoved(pods: map<string, PodConfig>, s: Slot, cfg: DeviceConfig)
    requires Stored(pods, s) && cfg.claimUID == Rec(pods, s).claimUID
    ensures WithoutClaim(WithDevice(pods, s.pod, s.key, cfg), cfg.claimUID) == WithoutClaim(pods, cfg.claimUID)
  {
    var claim, pods' := cfg.claimUID, WithDevice(pods, s.pod, s.key, cfg);
    SameDevicesWithout(pods[s.pod].devices, s.key, cfg);
    WithoutClaimAgrees(pods, pods', claim);
  }

  lemma SameDevicesWithout(devices: map<string, DeviceConfig>, key: string, cfg: DeviceConfig)
    requires key in devices && devices[key].claimUID == cfg.claimUID
    ensures DevicesWithout(devices[key := cfg], cfg.claimUID) == DevicesWithout(devices, cfg.claimUID)
  {
  }

  lemma WithoutClaimAgrees(pods: map<string, PodConfig>, pods': map<string, PodConfig>, claim: string)
    requires pods.Keys == pods'.Keys
    requires forall p :: p in pods ==> pods'[p] == pods[p].(devices := pods'[p].devices)
    requires forall p :: p in pods ==> DevicesWithout(pods'[p].devices, claim) == DevicesWithout(pods[p].devices, claim)
    ensures WithoutClaim(pods', claim) == WithoutClaim(pods, claim)
  {
  }

  lemma DroppedRecords(pods: map<string, PodConfig>, claim: string)
    ensures var after := WithoutClaim(pods, claim);
            forall s :: && (HasNic(after, s) <==> HasNic(pods, s) && Rec(pods, s).claimUID != claim)
                        && (HasNic(after, s) ==> Rec(after, s) == Rec(pods, s) && Path(after, s) == Path(pods, s))
  {
    forall s
      ensures var after := WithoutClaim(pods, claim);
              && (HasNic(after, s) <==> HasNic(pods, s) && Rec(pods, s).claimUID != claim)
              && (HasNic(after, s) ==> Rec(after, s) == Rec(pods, s) && Path(after, s) == Path(pods, s))
    {
      WithoutClaimExact(pods, claim, s.pod, s.key);
    }
  }

  /** A NIC that is away is not remembered by a claim whose NICs are home. */
  lemma DropKeepsMemory(pods: map<string, PodConfig>, claim: string, nicOf: map<HostDeviceState, nat>,
                        flags: map<HostDeviceState, bool>, i: nat)
    requires Remembered(pods, nicOf, flags, i)
    requires forall s :: HasNic(pods, s) && Rec(pods, s).claimUID == claim && State(pods, s) in flags ==> flags[State(pods, s)]
    ensures Remembered(WithoutClaim(pods, claim), nicOf, flags, i)
  {
    var t :| RemembersIn(pods, nicOf, flags, i, t);
    DroppedRecords(pods, claim);
    assert RemembersIn(WithoutClaim(pods, claim), nicOf, flags, i, t);
  }

  lemma NetNSKeepsMemory(pods: map<string, PodConfig>, pod: string, path: string, nicOf: map<HostDeviceState, nat>,
                         flags: map<HostDeviceState, bool>, nics: set<nat>, links: Links)
    requires AllRemembered(pods, nicOf, flags, nics, links)
    ensures AllRemembered(WithNetNS(pods, pod, path), nicOf, flags, nics, links)
  {
    var pods' := WithNetNS(pods, pod, path);
    forall i | i in nics && i in links && links[i].ns != Host
      ensures Remembered(pods', nicOf, flags, i)
    {
      assert Remembered(pods, nicOf, flags, i);
      var t :| RemembersIn(pods, nicOf, flags, i, t);
      assert Rec(pods', t) == Rec(pods, t);
      assert RemembersIn(pods', nicOf, flags, i, t);
    }
  }

  lemma SnapshotKeepsMemory(pods: map<string, PodConfig>, nicOf: map<HostDeviceState, nat>, flags: map<HostDeviceState, bool>,
                            s: Slot, made: DeviceConfig, nic: nat, flags': map<HostDeviceState, bool>, nics: set<nat>, links: Links)
    requires AllRemembered(pods, nicOf, flags, nics, links) && !HasNic(pods, s)
    requires made.hostDevice != null && made.hostDevice !in nicOf
    requires forall h :: h in nicOf && h in flags ==> h in flags' && flags'[h] == flags[h]
    ensures AllRemembered(WithDevice(pods, s.pod, s.key, made), nicOf[made.hostDevice := nic], flags', nics, links)
  {
    var pods', nicOf' := WithDevice(pods, s.pod, s.key, made), nicOf[made.hostDevice := nic];
    forall i | i in nics && i in links && links[i].ns != Host
      ensures Remembered(pods', nicOf', flags', i)
    {
      assert Remembered(pods, nicOf, flags, i);
      var t :| RemembersIn(pods, nicOf, flags, i, t);
      assert t != s && Rec(pods', t) == Rec(pods, t);
      assert RemembersIn(pods', nicOf', flags', i, t);
    }
  }

  /** Nothing but its NIC answers to a record of the pod that is still to be attached. */
  ghost predicate StandClear(pods: map<string, PodConfig>, nicOf: map<HostDeviceState, nat>, links: Links, pod: string) {
    forall s :: HasNic(pods, s) && s.pod == pod && Rec(pods, s).attachedIf == "" ==>
      State(pods, s) in nicOf && Clear(links, Path(pods, s), Rec(pods, s), nicOf[State(pods, s)])
  }

  /** For every record of the pod that is still to be attached, the name it asks for is free or guarded. */
  ghost predicate NamesGuarded(pods: map<string, PodConfig>, nicOf: map<HostDeviceState, nat>, links: Links, pod: string) {
    && (forall s :: HasNic(pods, s) ==> State(pods, s) in nicOf)
    && forall s :: HasNic(pods, s) && s.pod == pod && Rec(pods, s).attachedIf == "" ==> NameGuarded(pods, nicOf, links, s)
  }

  /** So it is in a namespace that nothing is attached in yet, even if several NICs of the pod ask for one name. */
  lemma FreshIsGuarded(pods: map<string, PodConfig>, nicOf: map<HostDeviceState, nat>, nics: set<nat>, links: Links, pod: string)
    requires RecordsMade(pods, nicOf, nics) && pod in pods
    requires forall t :: HasNic(pods, t) && Path(pods, t) == pods[pod].netNS ==> Rec(pods, t).attachedIf == ""
    ensures NamesGuarded(pods, nicOf, links, pod)
  {
  }

  ghost predicate Unambiguous(pods: map<string, PodConfig>, nicOf: map<HostDeviceState, nat>, links: Links) {
    && (forall s :: HasNic(pods, s) ==> State(pods, s) in nicOf)
    && RecordsApart(pods, nicOf) && AllClear(pods, nicOf, links)
  }

  datatype Sandbox = Sandbox(pod: string, path: string)

  /** Records stay unambiguous as the namespaces of these sandboxes are noted one after the other. */
  ghost predicate UsableInTurn(pods: map<string, PodConfig>, nicOf: map<HostDeviceState, nat>, links: Links, sandboxes: seq<Sandbox>)
    decreases |sandboxes|
  {
    sandboxes == []
    || (if sandboxes[0].path == "" then UsableInTurn(pods, nicOf, links, sandboxes[1..])
        else var pods' := WithNetNS(pods, sandboxes[0].pod, sandboxes[0].path);
             Unambiguous(pods', nicOf, links) && UsableInTurn(pods', nicOf, links, sandboxes[1..]))
  }

  /** The records once these sandboxes are noted. */
  ghost function Noted(pods: map<string, PodConfig>, sandboxes: seq<Sandbox>): map<string, PodConfig>
    decreases |sandboxes|
  {
    if sandboxes == [] then pods
    else Noted(if sandboxes[0].path == "" then pods else WithNetNS(pods, sandboxes[0].pod, sandboxes[0].path), sandboxes[1..])
  }

  ghost predicate SameRecords(pods: map<string, PodConfig>, pods': map<string, PodConfig>) {
    forall s :: (HasNic(pods', s) <==> HasNic(pods, s)) && (HasNic(pods, s) ==> Rec(pods', s) == Rec(pods, s))
  }

  /** Noting where pods run changes no record. */
  lemma {:induction false} NotedSame(pods: map<string, PodConfig>, sandboxes: seq<Sandbox>)
    ensures SameRecords(pods, Noted(pods, sandboxes))
    decreases |sandboxes|
  {
    if sandboxes != [] {
      var next := if sandboxes[0].path == "" then pods else WithNetNS(pods, sandboxes[0].pod, sandboxes[0].path);
      NetNSSame(pods, sandboxes[0].pod, sandboxes[0].path);
      NotedSame(next, sandboxes[1..]);
    }
  }

  lemma NetNSSame(pods: map<string, PodConfig>, pod: string, path: string)
    ensures SameRecords(pods, WithNetNS(pods, pod, path))
  {
  }

  predicate Runs(sandboxes: seq<Sandbox>, pod: string) {
    exists i :: 0 <= i < |sandboxes| && sandboxes[i].pod == pod
  }

  /** Attaching one record's NIC leaves every record good and unambiguous. */
  lemma AttachStaysClear(pods: map<string, PodConfig>, pods': map<string, PodConfig>, nicOf: map<HostDeviceState, nat>,
                         nics: set<nat>, before: Links, after: Links, s: Slot)
    requires RecordsMade(pods, nicOf, nics) && RecordsApart(pods, nicOf) && AllClear(pods, nicOf, before)
    requires HasNic(pods, s) && OnlyRecord(pods, pods', s) && ValidLinks(after)
    requires Rec(pods, s).attachedIf == "" && Rec(pods', s).netType == Rec(pods, s).netType
    requires Path(pods, s) != "" && NameGuarded(pods, nicOf, before, s)
    requires Rec(pods', s).interfaceName == Rec(pods, s).interfaceName
    requires var nic := nicOf[State(pods, s)];
             && nic in before && OnlyChanges(before, after, nic)
             && AttachTouches(before[nic], after[nic], Path(pods, s), Rec(pods, s))
             && (Rec(pods', s).attachedIf == ""
                 || (after[nic].ns == PodNs(Path(pods, s)) && Rec(pods', s).attachedIf == after[nic].name == Rec(pods, s).interfaceName))
    ensures RecordsMade(pods', nicOf, nics) && RecordsApart(pods', nicOf) && AllClear(pods', nicOf, after)
  {
    var nic := nicOf[State(pods, s)];
    forall t, u | HasNic(pods', t) && HasNic(pods', u) && t != u
      ensures nicOf[State(pods', t)] != nicOf[State(pods', u)]
              && Apart(Rec(pods', t), Rec(pods', u), Shared(Path(pods', t), Path(pods', u)))
    {
      assert HasNic(pods, t) && HasNic(pods, u);
      assert Apart(Rec(pods, t), Rec(pods, u), Shared(Path(pods, t), Path(pods, u)));
    }
    forall t | HasNic(pods', t)
      ensures Clear(after, Path(pods', t), Rec(pods', t), nicOf[State(pods', t)])
    {
      assert HasNic(pods, t) && Clear(before, Path(pods, t), Rec(pods, t), nicOf[State(pods, t)]);
      if t == s {
        OwnStaysClear(before, after, Path(pods, s), Rec(pods, s), Rec(pods, s), nic);
        if Rec(pods', s).attachedIf != "" {
          AttachedIsClear(after, Path(pods, s), Rec(pods, s), Rec(pods', s), nic);
        } else {
          OwnStaysClear(before, after, Path(pods, s), Rec(pods, s), Rec(pods', s), nic);
        }
      } else {
        AttachKeepsClear(before, after, nic, Path(pods, s), Rec(pods, s), Path(pods, t), Rec(pods, t), nicOf[State(pods, t)]);
      }
    }
  }

  /** The record was made from the link as it is now, and nobody else has it or uses its names in the pod. */
  ghost predicate SnapshotFits(pods: map<string, PodConfig>, was: map<HostDeviceState, nat>, links: Links,
                               s: Slot, made: DeviceConfig, nic: nat)
    requires made.hostDevice != null && forall t :: HasNic(pods, t) ==> State(pods, t) in was
  {
    && nic in links && links[nic].ns == Host && made.attachedIf == ""
    && made.hostDevice.originalName == links[nic].name && made.hostDevice.originalMAC == links[nic].mac
    && (links[nic].mac != "" ==> forall j :: j in links && links[j].mac == links[nic].mac ==> j == nic)
    && (forall t :: HasNic(pods, t) && t != s ==> was[State(pods, t)] != nic)
    && (forall t :: HasNic(pods, t) && t != s && Shared(Path(pods, t), PodAt(pods, s.pod).netNS) ==>
          Rec(pods, t).interfaceName != links[nic].name && State(pods, t).originalName != made.interfaceName)
  }

  /** The record holds what was asked for and a snapshot of the link of that name, which restoring would leave as it is. */
  ghost predicate Snapped(pods: map<string, PodConfig>, nicOf: map<HostDeviceState, nat>, links: Links,
                          s: Slot, hostName: string, cfg: DeviceConfig) {
    && HasNic(pods, s) && State(pods, s) in nicOf && Rec(pods, s) == cfg.(hostDevice := State(pods, s), lifecycle := "Prepared")
    && var nic, h := nicOf[State(pods, s)], State(pods, s);
       && nic in links && links[nic].ns == Host && links[nic].name == h.originalName == hostName
       && SavedLink(links[nic], h) == links[nic] && h.originalMAC == links[nic].mac && h.originalMTU == links[nic].mtu
  }

  lemma StoredIsSnapped(pods: map<string, PodConfig>, was: map<HostDeviceState, nat>, links: Links, s: Slot, cfg: DeviceConfig,
                        h: HostDeviceState, nic: nat)
    requires nic in links && links[nic].ns == Host && links[nic].name == h.originalName
    requires SavedLink(links[nic], h) == links[nic] && h.originalMAC == links[nic].mac && h.originalMTU == links[nic].mtu
    ensures var made := cfg.(hostDevice := h, lifecycle := "Prepared");
            && Snapped(WithDevice(pods, s.pod, s.key, made), was[h := nic], links, s, h.originalName, cfg)
            && Rec(WithDevice(pods, s.pod, s.key, made), s) == made
  {
  }

  lemma SnapshotIsMade(pods: map<string, PodConfig>, was: map<HostDeviceState, nat>, nics: set<nat>, s: Slot, made: DeviceConfig, nic: nat)
    requires RecordsMade(pods, was, nics) && NicsApart(pods, was) && !HasNic(pods, s) && nic in nics
    requires made.hostDevice != null && made.hostDevice !in was && WellSaved(made.hostDevice)
    requires made.netType == HOST_DEVICE && NamedAsAsked(made)
    requires forall t :: HasNic(pods, t) ==> was[State(pods, t)] != nic
    ensures var pods', nicOf := WithDevice(pods, s.pod, s.key, made), was[made.hostDevice := nic];
            RecordsMade(pods', nicOf, nics) && NicsApart(pods', nicOf)
  {
    var pods' := WithDevice(pods, s.pod, s.key, made);
    assert Rec(pods', s) == made;
    assert forall t :: HasNic(pods', t) && t != s ==> HasNic(pods, t) && Rec(pods', t) == Rec(pods, t);
  }

  /** Such a snapshot makes a good record among the others. */
  lemma SnapshotIsGood(pods: map<string, PodConfig>, was: map<HostDeviceState, nat>, links: Links, s: Slot, made: DeviceConfig, nic: nat)
    requires made.hostDevice != null && made.hostDevice !in was && ValidLinks(links)
    requires (forall t :: HasNic(pods, t) ==> State(pods, t) in was) && RecordsApart(pods, was) && AllClear(pods, was, links)
    requires SnapshotFits(pods, was, links, s, made, nic)
    ensures var pods', nicOf := WithDevice(pods, s.pod, s.key, made), was[made.hostDevice := nic];
            && (forall t :: HasNic(pods', t) ==> State(pods', t) in nicOf)
            && RecordsApart(pods', nicOf) && AllClear(pods', nicOf, links)
            && forall t :: HasNic(pods', t) && t != s ==> HasNic(pods, t) && Rec(pods', t) == Rec(pods, t)
  {
    var pods', nicOf := WithDevice(pods, s.pod, s.key, made), was[made.hostDevice := nic];
    forall t | HasNic(pods', t) && t != s
      ensures HasNic(pods, t) && Rec(pods', t) == Rec(pods, t) && Path(pods', t) == Path(pods, t)
      ensures Apart(made, Rec(pods, t), Shared(PodAt(pods, s.pod).netNS, Path(pods, t)))
      ensures Apart(Rec(pods, t), made, Shared(PodAt(pods, s.pod).netNS, Path(pods, t)))
    {
      assert !AnswersTo(links[nic], Path(pods, t), Rec(pods, t));
    }
    assert Rec(pods', s) == made && Path(pods', s) == PodAt(pods, s.pod).netNS;
    forall i | i in links && AnswersTo(links[i], Path(pods', s), made)
      ensures i == nic
    {
    }
  }

  lemma StillRestored(pods: map<string, PodConfig>, flags: map<HostDeviceState, bool>,
                      pods': map<string, PodConfig>, flags': map<HostDeviceState, bool>, slots: set<Slot>, s: Slot)
    requires OnlyThese(pods, flags, pods', flags', slots) && (HasNic(pods, s) ==> State(pods, s) in flags && flags[State(pods, s)])
    ensures AllRestored(pods', flags', {s})
  {
  }

  lemma StillStored(pods: map<string, PodConfig>, flags: map<HostDeviceState, bool>,
                    pods': map<string, PodConfig>, flags': map<HostDeviceState, bool>, slots: set<Slot>, s: Slot)
    requires OnlyThese(pods, flags, pods', flags', slots) && Stored(pods, s)
    ensures Stored(pods', s) && Rec(pods', s).claimUID == Rec(pods, s).claimUID
  {
  }
}
