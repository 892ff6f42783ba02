/** Reloading what the driver itself has written. */
module Reload {
  import opened Text
  import opened NodeStore
  import opened InterfaceNames

  ghost predicate AllCanonical(pods: map<string, PodConfig>) {
    forall p :: p in pods ==> Canonical(pods[p].devices)
  }

  /** A prepare stores a record under the key of the allocation result. The record repeats the result's share,
      except for DPDK devices, whose records have none. */
  predicate KeyedByResult(w: Write, share: Option<string>) {
    match w
    case PrepareLink(_, key, cfg) => key == DeviceStoreKey(cfg.claimUID, cfg.deviceName, share) && cfg.shareID == share
    case PrepareOther(_, key, cfg) =>
      && key == DeviceStoreKey(cfg.claimUID, cfg.deviceName, share)
      && cfg.shareID == if cfg.netType == "dpdk" then None else share
    case _ => true
  }

  /** Everything but a prepare writes a record back with its identity. */
  predicate SameIdentity(pods: map<string, PodConfig>, w: Write) {
    w.Update? && w.pod in pods && w.key in pods[w.pod].devices ==>
      && w.cfg.claimUID == pods[w.pod].devices[w.key].claimUID && w.cfg.deviceName == pods[w.pod].devices[w.key].deviceName
      && w.cfg.shareID == pods[w.pod].devices[w.key].shareID
  }

  predicate IsDpdkPrepare(w: Write) {
    w.PrepareOther? && w.cfg.netType == "dpdk"
  }

  /** The driver's own writes, `shares` giving the share of the allocation result behind each. */
  ghost predicate DriverHistory(states: seq<map<string, PodConfig>>, writes: seq<Write>, shares: seq<Option<string>>) {
    && IsHistory(states, writes) && |shares| == |writes|
    && forall i :: 0 <= i < |writes| ==>
         && KeyedByResult(writes[i], shares[i]) && SameIdentity(states[i], writes[i])
         && (IsDpdkPrepare(writes[i]) ==> Share(shares[i]) == "")
  }

  lemma WriteStaysCanonical(pods: map<string, PodConfig>, w: Write, share: Option<string>)
    requires AllCanonical(pods) && Allowed(pods, w) && KeyedByResult(w, share) && SameIdentity(pods, w)
    requires IsDpdkPrepare(w) ==> Share(share) == ""
    ensures AllCanonical(Written(pods, w))
  {
  }

  /** Every record the driver has written is under its own key. */
  lemma {:induction false} HistoryStaysCanonical(states: seq<map<string, PodConfig>>, writes: seq<Write>, shares: seq<Option<string>>, i: nat)
    requires DriverHistory(states, writes, shares) && i < |states|
    ensures AllCanonical(states[i])
    decreases i
  {
    if i > 0 {
      HistoryStaysCanonical(states, writes, shares, i - 1);
      WriteStaysCanonical(states[i - 1], writes[i - 1], shares[i - 1]);
    }
  }

  /** So loading it again moves nothing. */
  method ReloadAfter(s: Store, ghost states: seq<map<string, PodConfig>>, ghost writes: seq<Write>, ghost shares: seq<Option<string>>)
    returns (changed: bool)
    requires DriverHistory(states, writes, shares) && s.pods == states[|writes|]
    modifies s`pods
    ensures !changed && s.pods == old(s.pods)
  {
    HistoryStaysCanonical(states, writes, shares, |writes|);
    changed := ReloadCanonical(s);
  }

  /** A DPDK device allocated with a share is moved exactly because its record does not repeat the share. */
  lemma DpdkShareIsMoved(pod: string, key: string, cfg: DeviceConfig, share: Option<string>)
    requires KeyedByResult(PrepareOther(pod, key, cfg), share) && cfg.netType == "dpdk"
    requires cfg.claimUID != "" && cfg.deviceName != ""
    ensures MigratedKey(key, cfg) == key <==> Share(share) == ""
  {
  }
}
