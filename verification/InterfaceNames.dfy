/** Names of macvlan and ipvlan interfaces inside a pod. */
module InterfaceNames {
  import opened Text
  import opened NodeStore

  const MAX_NAME_BYTES := 15
  const NAME_LIMIT := 10000

  predicate IsLink(cfg: DeviceConfig) {
    cfg.netType == "macvlan" || cfg.netType == "ipvlan"
  }

  /** validatePodInterfaceName */
  predicate ValidName(name: string) {
    && 1 <= |name| <= MAX_NAME_BYTES
    && name != "." && name != ".."
    && forall i :: 0 <= i < |name| ==> name[i] !in "/: \t\r\n"
  }

  /** A valid name has 1 to 15 bytes, is neither of the two directory names, and has no slash, colon or white space of
      the ASCII range that separates words and lines. */
  lemma ValidNameReads(name: string)
    ensures ValidName(name)
            <==> && 0 < |name| < 16 && name != "." && name != ".."
                 && '/' !in name && ':' !in name && ' ' !in name && '\t' !in name && '\r' !in name && '\n' !in name
  {
    assert forall c :: c in "/: \t\r\n" <==> c in {'/', ':', ' ', '\t', '\r', '\n'};
  }

  ghost function UsedNames(devices: map<string, DeviceConfig>): set<string> {
    set k | k in devices && devices[k].interfaceName != "" :: devices[k].interfaceName
  }

  /** This record already has a name. */
  predicate Named(devices: map<string, DeviceConfig>, key: string) {
    key in devices && devices[key].interfaceName != ""
  }

  function NetName(j: nat): string {
    "net" + Itoa(j)
  }

  /** The number after "net", when the name has that form and the number is positive. */
  function NetIndex(name: string): Option<nat> {
    if |name| < 3 || name[..3] != "net" then None
    else
      var n := Atoi(name[3..]);
      if n.Some? && n.value >= 1 then Some(n.value) else None
  }

  function Configured(configured: string): string {
    if configured == "" then "net1" else configured
  }

  /** What a macvlan or ipvlan device may be called: what it is called already, else a valid name no device of the pod has. */
  ghost predicate Acceptable(devices: map<string, DeviceConfig>, key: string, name: string) {
    if Named(devices, key) then devices[key].interfaceName == name
    else ValidName(name) && name !in UsedNames(devices)
  }

  method CollectUsed(devices: map<string, DeviceConfig>) returns (used: set<string>)
    ensures used == UsedNames(devices)
  {
    used := {};
    var left := devices.Keys;
    while left != {}
      invariant left <= devices.Keys
      invariant used == set k | k in devices && k !in left && devices[k].interfaceName != "" :: devices[k].interfaceName
      decreases |left|
    {
      var k :| k in left;
      if devices[k].interfaceName != "" {
        used := used + {devices[k].interfaceName};
      }
      left := left - {k};
    }
  }

  lemma NetNameValid(j: nat)
    requires j < NAME_LIMIT
    ensures ValidName(NetName(j))
  {
    assert Pow10(2) == 100;
    assert Pow10(4) == NAME_LIMIT;
    ItoaLength(j, 4, NAME_LIMIT);
    var s := NetName(j);
    assert forall i :: 3 <= i < |s| ==> s[i] == Itoa(j)[i - 3];
  }

  lemma NetNameInjective(i: nat, j: nat)
    requires NetName(i) == NetName(j)
    ensures i == j
  {
    assert NetName(i)[3..] == Itoa(i) && NetName(j)[3..] == Itoa(j);
    ItoaInjective(i, j);
  }

  /** podInterfaceName. An override is the trimmed value of its Pod annotation, empty when absent. */
  method PodInterfaceName(devices: map<string, DeviceConfig>, key: string,
                          claimOverride: string, requestOverride: string, configured: string) returns (r: Option<string>)
    ensures r.Some? ==> Acceptable(devices, key, r.value)
    ensures Named(devices, key) ==> r == Some(devices[key].interfaceName)
    ensures !Named(devices, key) && claimOverride != "" ==>
              r == if ValidName(claimOverride) && claimOverride !in UsedNames(devices) then Some(claimOverride) else None
    ensures !Named(devices, key) && claimOverride == "" && requestOverride != "" ==>
              r == if ValidName(requestOverride) && requestOverride !in UsedNames(devices) then Some(requestOverride) else None
    ensures !Named(devices, key) && claimOverride == "" && requestOverride == "" ==>
              DefaultName(UsedNames(devices), Configured(configured), r)
  {
    if key in devices && devices[key].interfaceName != "" {
      return Some(devices[key].interfaceName);
    }
    var used := CollectUsed(devices);
    var references := [claimOverride, requestOverride];
    for i := 0 to 2
      invariant forall j :: 0 <= j < i ==> references[j] == ""
    {
      assert i == 1 ==> references[0] == "";
      if references[i] != "" {
        if !ValidName(references[i]) {
          return None;
        }
        if references[i] in used {
          return None;
        }
        return Some(references[i]);
      }
    }
    assert references[0] == "" && references[1] == "";
    var name := if configured == "" then "net1" else configured;
    if !ValidName(name) {
      return None;
    }
    if name !in used {
      return Some(name);
    }
    if |name| < 3 || name[..3] != "net" {
      return None;
    }
    var start := Atoi(name[3..]);
    if start.None? || start.value < 1 {
      return None;
    }
    var index := start.value + 1;
    while index < NAME_LIMIT
      invariant start.value < index
      invariant forall j :: start.value < j < index && j < NAME_LIMIT ==> NetName(j) in used
    {
      var candidate := NetName(index);
      if candidate !in used {
        NetNameValid(index);
        return Some(candidate);
      }
      index := index + 1;
    }
    return None;
  }

  /** Without an override: the configured name if free; on a collision of net<k> the smallest free
      net<j> above it; failure only when the configured name is unusable or every net<j> is taken. */
  ghost predicate DefaultName(used: set<string>, configured: string, r: Option<string>) {
    if !ValidName(configured) then r.None?
    else if configured !in used then r == Some(configured)
    else if NetIndex(configured).None? then r.None?
    else
      var k := NetIndex(configured).value;
      if r.None? then forall j :: k < j < NAME_LIMIT ==> NetName(j) in used
      else exists j :: k < j < NAME_LIMIT && r == Some(NetName(j)) && NetName(j) !in used
                       && forall i :: k < i < j ==> NetName(i) in used
  }

  // ---------------------------------------------------------------- a free name exists

  ghost function NetNames(k: nat, n: nat): set<string>
    requires k <= n
  {
    set j | k < j <= n :: NetName(j)
  }

  lemma {:induction false} NetNamesCount(k: nat, n: nat)
    requires k <= n
    ensures |NetNames(k, n)| == n - k
    decreases n
  {
    if k == n {
      assert NetNames(k, n) == {};
    } else {
      NetNamesCount(k, n - 1);
      assert NetName(n) !in NetNames(k, n - 1) by {
        if NetName(n) in NetNames(k, n - 1) {
          var j :| k < j <= n - 1 && NetName(j) == NetName(n);
          NetNameInjective(j, n);
        }
      }
      assert NetNames(k, n) == NetNames(k, n - 1) + {NetName(n)};
    }
  }

  lemma SubsetSize<T>(a: set<T>, b: set<T>)
    requires a <= b
    ensures |a| <= |b|
  {
    assert b == a + (b - a);
  }

  lemma NetIndexOfNetName(j: nat)
    requires j >= 1
    ensures NetIndex(NetName(j)) == Some(j)
  {
    AtoiItoa(j);
    assert NetName(j)[3..] == Itoa(j) && NetName(j)[..3] == "net";
  }

  /** A collision of net<k> is resolved whenever the pod uses at most 9999 - k names, its own included. */
  lemma FreeNameExists(used: set<string>, configured: string, r: Option<string>)
    requires ValidName(configured) && configured in used && NetIndex(configured).Some?
    requires NetIndex(configured).value < NAME_LIMIT && |used| <= NAME_LIMIT - 1 - NetIndex(configured).value
    requires DefaultName(used, configured, r)
    ensures r.Some?
  {
    var k := NetIndex(configured).value;
    if r.None? {
      var names := NetNames(k, NAME_LIMIT - 1);
      NetNamesCount(k, NAME_LIMIT - 1);
      assert names <= used - {configured} by {
        forall n | n in names
          ensures n in used && n != configured
        {
          var j :| k < j <= NAME_LIMIT - 1 && NetName(j) == n;
          NetIndexOfNetName(j);
        }
      }
      SubsetSize(names, used - {configured});
    }
  }

  // ---------------------------------------------------------------- every reachable store

  /** Link devices of one pod have valid names, no two the same. */
  ghost predicate NamesApart(devices: map<string, DeviceConfig>) {
    && (forall k :: k in devices && IsLink(devices[k]) ==> ValidName(devices[k].interfaceName))
    && (forall j, k :: j in devices && k in devices && j != k && IsLink(devices[j]) && IsLink(devices[k]) ==>
          devices[j].interfaceName != devices[k].interfaceName)
  }

  ghost predicate AllApart(pods: map<string, PodConfig>) {
    forall p :: p in pods ==> NamesApart(pods[p].devices)
  }

  /** What writes device records: a prepare of a link device under a name just chosen, of any other
      device under any name, an update that keeps type and name, a new namespace, a dropped claim. */
  datatype Write =
    | PrepareLink(pod: string, key: string, cfg: DeviceConfig)
    | PrepareOther(pod: string, key: string, cfg: DeviceConfig)
    | Update(pod: string, key: string, cfg: DeviceConfig)
    | NewNamespace(pod: string, netns: string)
    | DropClaim(claim: string)

  /** A device name stands for one NIC, which is shared or exclusive: link and other records do not trade keys. */
  ghost predicate Allowed(pods: map<string, PodConfig>, w: Write) {
    match w
    case PrepareLink(pod, key, cfg) =>
      var devices := PodAt(pods, pod).devices;
      IsLink(cfg) && Acceptable(devices, key, cfg.interfaceName) && (key in devices ==> IsLink(devices[key]))
    case PrepareOther(pod, key, cfg) =>
      var devices := PodAt(pods, pod).devices;
      !IsLink(cfg) && (key in devices ==> !IsLink(devices[key]))
    case Update(pod, key, cfg) =>
      pod in pods && key in pods[pod].devices
      && cfg.netType == pods[pod].devices[key].netType && cfg.interfaceName == pods[pod].devices[key].interfaceName
    case _ => true
  }

  function Written(pods: map<string, PodConfig>, w: Write): map<string, PodConfig> {
    match w
    case PrepareLink(pod, key, cfg) => WithDevice(pods, pod, key, cfg)
    case PrepareOther(pod, key, cfg) => WithDevice(pods, pod, key, cfg)
    case Update(pod, key, cfg) => WithDevice(pods, pod, key, cfg)
    case NewNamespace(pod, netns) => WithNetNS(pods, pod, netns)
    case DropClaim(claim) => WithoutClaim(pods, claim)
  }

  lemma LinkKeepsApart(devices: map<string, DeviceConfig>, key: string, cfg: DeviceConfig)
    requires NamesApart(devices) && IsLink(cfg) && Acceptable(devices, key, cfg.interfaceName)
    requires key in devices ==> IsLink(devices[key])
    ensures NamesApart(devices[key := cfg])
  {
  }

  lemma WriteKeepsApart(pods: map<string, PodConfig>, w: Write)
    requires AllApart(pods) && Allowed(pods, w)
    ensures AllApart(Written(pods, w))
  {
    if w.PrepareLink? {
      LinkKeepsApart(PodAt(pods, w.pod).devices, w.key, w.cfg);
    }
  }

  ghost predicate IsHistory(states: seq<map<string, PodConfig>>, writes: seq<Write>) {
    && |states| == |writes| + 1
    && states[0] == map[]
    && forall i :: 0 <= i < |writes| ==> Allowed(states[i], writes[i]) && states[i + 1] == Written(states[i], writes[i])
  }

  /** In every store a history of writes can reach, the link devices of a pod have pairwise distinct, valid names. */
  lemma {:induction false} NamesAlwaysApart(states: seq<map<string, PodConfig>>, writes: seq<Write>, i: nat)
    requires IsHistory(states, writes) && i < |states|
    ensures AllApart(states[i])
    decreases i
  {
    if i > 0 {
      NamesAlwaysApart(states, writes, i - 1);
      WriteKeepsApart(states[i - 1], writes[i - 1]);
    }
  }

  /** Preparing a link device: choose its name, then store its record. What is stored is an allowed write, names
      stay apart, and a device prepared again keeps its name, whatever the overrides and the configuration say now. */
  method PrepareLinkDevice(store: Store, pod: string, key: string, claimOverride: string, requestOverride: string, cfg: DeviceConfig)
    returns (name: Option<string>, ok: bool)
    requires AllApart(store.pods) && IsLink(cfg)
    requires key in PodAt(store.pods, pod).devices ==> IsLink(PodAt(store.pods, pod).devices[key])
    modifies store`pods, store`failures
    ensures AllApart(store.pods)
    ensures ok <==> name.Some? && store.failures == old(store.failures)
    ensures name.None? ==> !ok && store.pods == old(store.pods)
    ensures name.Some? ==>
              var w := PrepareLink(pod, key, cfg.(interfaceName := name.value));
              Allowed(old(store.pods), w) && store.pods == Written(old(store.pods), w)
    ensures old(key in PodAt(store.pods, pod).devices) ==>
              name == Some(old(PodAt(store.pods, pod).devices[key].interfaceName))
              && store.pods[pod].devices[key].interfaceName == old(PodAt(store.pods, pod).devices[key].interfaceName)
    ensures forall other :: other in old(PodAt(store.pods, pod).devices) && other != key ==>
              store.pods[pod].devices[other] == old(PodAt(store.pods, pod).devices[other])
  {
    ghost var pods := store.pods;
    ok := false;
    name := PodInterfaceName(PodAt(store.pods, pod).devices, key, claimOverride, requestOverride, cfg.interfaceName);
    if name.Some? {
      WriteKeepsApart(pods, PrepareLink(pod, key, cfg.(interfaceName := name.value)));
      ok := store.SetDevice(pod, key, cfg.(interfaceName := name.value));
    }
  }

  // ---------------------------------------------------------------- devices of other types

  /** No two devices of a pod have the same name, whatever their types; devices may be nameless. */
  ghost predicate DevicesApart(devices: map<string, DeviceConfig>) {
    forall j, k :: j in devices && k in devices && j != k && devices[j].interfaceName != "" ==>
      devices[j].interfaceName != devices[k].interfaceName
  }

  ghost predicate AllDevicesApart(pods: map<string, PodConfig>) {
    forall p :: p in pods ==> DevicesApart(pods[p].devices)
  }

  /** The name a prepare of another type asks for is one that no other device of its pod has. */
  ghost predicate NameFree(pods: map<string, PodConfig>, w: Write)
    requires w.PrepareOther?
  {
    w.cfg.interfaceName == ""
    || forall k :: k in PodAt(pods, w.pod).devices && k != w.key ==> PodAt(pods, w.pod).devices[k].interfaceName != w.cfg.interfaceName
  }

  lemma LinkKeepsDevicesApart(devices: map<string, DeviceConfig>, key: string, cfg: DeviceConfig)
    requires DevicesApart(devices) && Acceptable(devices, key, cfg.interfaceName)
    ensures DevicesApart(devices[key := cfg])
  {
    forall k | k in devices && k != key && devices[k].interfaceName != ""
      ensures devices[k].interfaceName != cfg.interfaceName
    {
      if !Named(devices, key) {
        assert devices[k].interfaceName in UsedNames(devices);
      }
    }
  }

  lemma OtherKeepsDevicesApart(devices: map<string, DeviceConfig>, key: string, cfg: DeviceConfig)
    requires DevicesApart(devices)
    ensures DevicesApart(devices[key := cfg])
            <==> cfg.interfaceName == "" || forall k :: k in devices && k != key ==> devices[k].interfaceName != cfg.interfaceName
  {
    var after := devices[key := cfg];
    if DevicesApart(after) && cfg.interfaceName != "" {
      forall k | k in devices && k != key
        ensures devices[k].interfaceName != cfg.interfaceName
      {
        assert k in after && after[key] == cfg;
      }
    }
  }

  /** One write keeps all names apart exactly unless it prepares a device of another type under a name in use. */
  lemma WriteKeepsDevicesApart(pods: map<string, PodConfig>, w: Write)
    requires AllDevicesApart(pods) && Allowed(pods, w)
    ensures AllDevicesApart(Written(pods, w)) <==> (w.PrepareOther? ==> NameFree(pods, w))
  {
    var pods' := Written(pods, w);
    match w
    case PrepareLink(pod, key, cfg) =>
      LinkKeepsDevicesApart(PodAt(pods, pod).devices, key, cfg);
    case PrepareOther(pod, key, cfg) =>
      OtherKeepsDevicesApart(PodAt(pods, pod).devices, key, cfg);
      assert pod in pods' && pods'[pod].devices == PodAt(pods, pod).devices[key := cfg];
    case Update(pod, key, cfg) =>
      assert forall k :: k in pods[pod].devices ==> pods'[pod].devices[k].interfaceName == pods[pod].devices[k].interfaceName;
    case NewNamespace(_, _) =>
    case DropClaim(_) =>
  }

  /** Along a history, names of all devices stay apart up to some write exactly when no device of another type was
      prepared before it under a name in use: a caller can tell before each prepare. */
  lemma {:induction false} DevicesApartExactly(states: seq<map<string, PodConfig>>, writes: seq<Write>, n: nat)
    requires IsHistory(states, writes) && n <= |writes|
    ensures (forall i :: 0 <= i <= n ==> AllDevicesApart(states[i]))
            <==> (forall i :: 0 <= i < n && writes[i].PrepareOther? ==> NameFree(states[i], writes[i]))
    decreases n
  {
    if n > 0 {
      DevicesApartExactly(states, writes, n - 1);
      if AllDevicesApart(states[n - 1]) {
        WriteKeepsDevicesApart(states[n - 1], writes[n - 1]);
        assert states[n] == Written(states[n - 1], writes[n - 1]);
        assert (forall i :: 0 <= i <= n ==> AllDevicesApart(states[i]))
               <==> (forall i :: 0 <= i <= n - 1 ==> AllDevicesApart(states[i])) && AllDevicesApart(states[n]);
      }
    }
  }

  /** The guarantee is for link devices only: a device of another type may take a name already in use. */
  lemma OtherTypesMayCollide(link: DeviceConfig, nic: DeviceConfig)
    requires link.netType == "macvlan" && nic.netType == HOST_DEVICE
    requires link.interfaceName == nic.interfaceName == "net1"
    ensures Allowed(map[], PrepareLink("p", "a", link))
    ensures Allowed(Written(map[], PrepareLink("p", "a", link)), PrepareOther("p", "b", nic))
  {
  }
}
