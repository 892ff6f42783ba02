/** One node's address management, call by call, while nobody else interferes. */
module Ipam {
  import opened Text
  import opened Ipv4
  import opened Pools
  import opened Allocations
  import opened Protocol
  import opened NodeStore
  import opened Api

  // ---------------------------------------------------------------- one address

  /** The object stands for this very pool, address and claim. */
  predicate Matches(name: string, stored: Object, pool: string, address: string, claim: string) {
    var parsed := Parse(name, stored.raw);
    parsed.Some? && parsed.value.claim.uid == claim && parsed.value.pool == pool && parsed.value.address == address
  }

  predicate Usable(c: Cluster, name: string, pool: string, address: string, claim: string) {
    name !in c.objects || Matches(name, c.objects[name], pool, address, claim)
  }

  /** A well-formed allocation of something else is in the way. */
  predicate Blocked(c: Cluster, name: string, pool: string, address: string, claim: string) {
    name in c.objects && Parse(name, c.objects[name].raw).Some? && !Matches(name, c.objects[name], pool, address, claim)
  }

  /** The cluster with the object under this name, if it was not there. */
  function WithObject(c: Cluster, name: string, raw: RawSpec): Cluster {
    if name in c.objects then c else Create(c, name, raw)
  }

  /** An object is in the way that no allocation can be read from. */
  predicate Garbled(c: Cluster, name: string) {
    name in c.objects && Parse(name, c.objects[name].raw).None?
  }

  datatype ReserveReply = Reserved | Taken | Malformed | CallFailed

  /** Reserve: create the object, or find that the one in the way is this very allocation. Unless a call fails,
      the answer is determined by what is under the name. */
  method Reserve(api: ApiServer, a: Allocation) returns (r: ReserveReply)
    modifies api
    ensures var c, name := old(api.cluster), api.nameOf(a.pool, a.address);
            && (r == Reserved ==> Usable(c, name, a.pool, a.address, a.claim.uid) && api.cluster == WithObject(c, name, NewSpec(a)))
            && (r == Taken ==> Blocked(c, name, a.pool, a.address, a.claim.uid) && api.cluster == c)
            && (r == Malformed ==> Garbled(c, name) && api.cluster == c)
            && (r == CallFailed ==> api.cluster == c || api.cluster == WithObject(c, name, NewSpec(a)))
    ensures r == CallFailed <==> api.failures != old(api.failures)
  {
    var name := api.nameOf(a.pool, a.address);
    var created := api.Create(name, NewSpec(a));
    if created == Created {
      return Reserved;
    }
    if created != AlreadyExists {
      return CallFailed;
    }
    var existing := api.Get(name);
    if !existing.Got? {
      return CallFailed;
    }
    var parsed := Parse(name, existing.stored.raw);
    if parsed.None? {
      return Malformed;
    }
    if parsed.value.claim.uid == a.claim.uid && parsed.value.pool == a.pool && parsed.value.address == a.address {
      return Reserved;
    }
    return Taken;
  }

  // ---------------------------------------------------------------- a claim's allocations

  /** FindForClaim: an allocation of the claim if there is any. */
  method FindForClaim(api: ApiServer, claim: string) returns (ok: bool, found: Option<Allocation>)
    modifies api`failures
    ensures ok <==> api.failures == old(api.failures)
    ensures ok && found.Some? ==>
              Owns(api.cluster, claim, found.value.name)
              && Parse(found.value.name, api.cluster.objects[found.value.name].raw) == found
    ensures ok && found.None? ==> forall name :: !Owns(api.cluster, claim, name)
  {
    var list := api.List();
    if list.NoSuchKind? {
      return true, None;
    }
    if list.ListError? {
      return false, None;
    }
    for i := 0 to |list.items|
      invariant forall k :: 0 <= k < i ==> !Owns(api.cluster, claim, list.items[k].name)
    {
      var item := list.items[i];
      assert item in list.items;
      var parsed := Parse(item.name, item.stored.raw);
      if parsed.Some? && parsed.value.claim.uid == claim {
        return true, parsed;
      }
    }
    forall name
      ensures !Owns(api.cluster, claim, name)
    {
      if name in api.cluster.objects {
        assert Item(name, api.cluster.objects[name]) in list.items;
      }
    }
    return true, None;
  }

  /** What a release of the claim leaves. */
  function Unowned(c: Cluster, claim: string): map<string, Object> {
    map name | name in c.objects && !Owns(c, claim, name) :: c.objects[name]
  }

  /** Some of the claim's allocations are gone; nothing else has changed. */
  ghost predicate Releasing(before: Cluster, after: Cluster, claim: string) {
    && after == before.(objects := after.objects, released := after.released)
    && after.objects.Keys <= before.objects.Keys
    && (forall name :: name in after.objects ==> after.objects[name] == before.objects[name])
    && (forall name :: name in before.objects && name !in after.objects ==> Owns(before, claim, name))
  }

  /** However far a release got, what it would leave is still the same, and is all that is left at its end. */
  lemma ReleasingKeepsUnowned(before: Cluster, after: Cluster, claim: string)
    requires Releasing(before, after, claim)
    ensures Unowned(after, claim) == Unowned(before, claim)
    ensures (forall name :: !Owns(after, claim, name)) <==> after.objects == Unowned(before, claim)
  {
  }

  lemma ReleaseStepOn(a: Cluster, b: Cluster, claim: string, name: string, uid: nat)
    requires Releasing(a, b, claim) && Owns(a, claim, name)
    ensures Releasing(a, Delete(b, name, uid, true), claim)
  {
  }

  /** DeleteForClaim: success leaves exactly the objects of other claims and the malformed ones;
      failure may have removed some of the claim's. */
  method DeleteForClaim(api: ApiServer, claim: string) returns (ok: bool)
    modifies api
    ensures Releasing(old(api.cluster), api.cluster, claim)
    ensures ok ==> api.cluster.objects == Unowned(old(api.cluster), claim)
    ensures api.failures == old(api.failures) + (if ok then 0 else 1)
  {
    ghost var before := api.cluster;
    var list := api.List();
    if list.NoSuchKind? {
      return true;
    }
    if list.ListError? {
      return false;
    }
    for i := 0 to |list.items|
      invariant Releasing(before, api.cluster, claim) && api.failures == old(api.failures)
      invariant forall k :: 0 <= k < i && list.items[k].name in api.cluster.objects ==> !Owns(before, claim, list.items[k].name)
    {
      assert list.items[i] in list.items;
      ok := DeleteIfOwned(api, list.items[i], claim, before);
      if !ok {
        return;
      }
    }
    AllReleased(before, api.cluster, claim, list.items);
    return true;
  }

  /** One round of the loop. */
  method DeleteIfOwned(api: ApiServer, item: Item, claim: string, ghost before: Cluster) returns (ok: bool)
    requires Releasing(before, api.cluster, claim) && item.name in before.objects && before.objects[item.name] == item.stored
    modifies api
    ensures Releasing(before, api.cluster, claim) && api.cluster.objects.Keys <= old(api.cluster.objects.Keys)
    ensures ok ==> item.name in api.cluster.objects ==> !Owns(before, claim, item.name)
    ensures api.failures == old(api.failures) + (if ok then 0 else 1)
  {
    var parsed := Parse(item.name, item.stored.raw);
    if parsed.None? || parsed.value.claim.uid != claim {
      return true;
    }
    ReleaseStepOn(before, api.cluster, claim, item.name, item.stored.uid);
    var deleted := api.Delete(item.name, item.stored.uid, true);
    ok := !deleted.DeleteConflict? && !deleted.DeleteError?;
  }

  lemma AllReleased(before: Cluster, after: Cluster, claim: string, items: seq<Item>)
    requires Releasing(before, after, claim) && Lists(before.objects, items)
    requires forall k :: 0 <= k < |items| && items[k].name in after.objects ==> !Owns(before, claim, items[k].name)
    ensures after.objects == Unowned(before, claim)
  {
  }

  // ---------------------------------------------------------------- a dynamic address

  function AddressText(pool: Pool, ip: Addr): string {
    CidrText(ip, pool.subnet.ones)
  }

  function Wanted(pool: Pool, ip: Addr, kind: Kind, req: Request, node: string): Allocation {
    Allocation("", pool.name, AddressText(pool, ip), kind.Text(), Ref(req.key.namespace, req.key.name, req.claim), req.pod, node)
  }

  predicate UsableIp(c: Cluster, nameOf: (string, string) -> string, pool: Pool, claim: string, ip: Addr) {
    var address := AddressText(pool, ip);
    Usable(c, nameOf(pool.name, address), pool.name, address, claim)
  }

  predicate BlockedIp(c: Cluster, nameOf: (string, string) -> string, pool: Pool, claim: string, ip: Addr) {
    var address := AddressText(pool, ip);
    Blocked(c, nameOf(pool.name, address), pool.name, address, claim)
  }

  predicate GarbledIp(c: Cluster, nameOf: (string, string) -> string, pool: Pool, ip: Addr) {
    Garbled(c, nameOf(pool.name, AddressText(pool, ip)))
  }

  /** The address at this place of the list is the first that is free or the claim's already. */
  ghost predicate FirstUsable(c: Cluster, nameOf: (string, string) -> string, pool: Pool, claim: string, ips: seq<Addr>, k: nat) {
    && k < |ips| && UsableIp(c, nameOf, pool, claim, ips[k])
    && forall j :: 0 <= j < k ==> BlockedIp(c, nameOf, pool, claim, ips[j])
  }

  /** The cluster after a reservation for this address. */
  function After(c: Cluster, nameOf: (string, string) -> string, a: Allocation): Cluster {
    WithObject(c, nameOf(a.pool, a.address), NewSpec(a))
  }

  datatype DynamicReply = Assigned(address: string) | Exhausted | DynamicError

  /** What a dynamic reservation does, told by the list of candidates: `k` is where it stopped, `failed` whether a call failed. */
  ghost predicate DynamicOutcome(c: Cluster, c': Cluster, nameOf: (string, string) -> string, pool: Pool, req: Request,
                                 node: string, ips: seq<Addr>, r: DynamicReply, k: nat, failed: bool)
  {
    match r
    case Assigned(address) =>
      && !failed && FirstUsable(c, nameOf, pool, req.claim, ips, k) && address == AddressText(pool, ips[k])
      && c' == After(c, nameOf, Wanted(pool, ips[k], Dynamic, req, node))
    case Exhausted => !failed && c' == c && forall ip :: ip in ips ==> BlockedIp(c, nameOf, pool, req.claim, ip)
    case DynamicError =>
      && k < |ips| && (forall j :: 0 <= j < k ==> BlockedIp(c, nameOf, pool, req.claim, ips[j]))
      && if failed then c' == c || c' == After(c, nameOf, Wanted(pool, ips[k], Dynamic, req, node))
         else c' == c && GarbledIp(c, nameOf, pool, ips[k])
  }

  lemma OutcomeOfMore(c: Cluster, c': Cluster, nameOf: (string, string) -> string, pool: Pool, req: Request,
                      node: string, ips: seq<Addr>, more: seq<Addr>, r: DynamicReply, k: nat, failed: bool)
    requires DynamicOutcome(c, c', nameOf, pool, req, node, ips, r, k, failed) && !r.Exhausted?
    ensures DynamicOutcome(c, c', nameOf, pool, req, node, ips + more, r, k, failed)
  {
  }

  /** reserveDynamicAddress. When every offered address is also tried, the outcome is told by the offered ones. */
  method ReserveDynamicAddress(api: ApiServer, pool: Pool, req: Request, node: string)
    returns (r: DynamicReply, ghost k: nat)
    modifies api
    ensures DynamicOutcome(old(api.cluster), api.cluster, api.nameOf, pool, req, node, Candidates(pool), r, k,
                           api.failures != old(api.failures))
    ensures (forall range :: range in pool.allocations ==> MaxOnlyLast(Expanded(range), pool.reservations)) ==>
              DynamicOutcome(old(api.cluster), api.cluster, api.nameOf, pool, req, node, Eligible(pool), r, k,
                             api.failures != old(api.failures))
  {
    r, k := TryRanges(api, pool, req, node);
    CandidatesComplete(pool);
  }

  lemma NextRange(done: seq<Addr>, ranges: seq<IPRange>, reservations: seq<IPRange>, i: nat)
    requires i < |ranges|
    ensures done + TriedInRanges(ranges[i..], reservations)
            == done + Tried(Expanded(ranges[i]), reservations) + TriedInRanges(ranges[i + 1..], reservations)
  {
  }

  /** The outer loop. */
  method TryRanges(api: ApiServer, pool: Pool, req: Request, node: string)
    returns (r: DynamicReply, ghost k: nat)
    modifies api
    ensures DynamicOutcome(old(api.cluster), api.cluster, api.nameOf, pool, req, node, Candidates(pool), r, k,
                           api.failures != old(api.failures))
  {
    ghost var before := api.cluster;
    k := 0;
    ghost var done: seq<Addr> := [];
    for i := 0 to |pool.allocations|
      invariant api.cluster == before && api.failures == old(api.failures) && k == |done|
      invariant done + TriedInRanges(pool.allocations[i..], pool.reservations) == Candidates(pool)
      invariant forall ip :: ip in done ==> BlockedIp(before, api.nameOf, pool, req.claim, ip)
    {
      var ips := ExpandIPRange(pool.allocations[i]);
      ghost var rest := TriedInRanges(pool.allocations[i + 1..], pool.reservations);
      ghost var start := done;
      NextRange(done, pool.allocations, pool.reservations, i);
      var stop, answer;
      stop, answer, done := TryRange(api, pool, req, node, ips, done);
      k := |done|;
      if stop {
        OutcomeOfMore(before, api.cluster, api.nameOf, pool, req, node, start + Tried(ips, pool.reservations), rest, answer, k,
                      api.failures != old(api.failures));
        return answer, k;
      }
      assert done == start + Tried(ips, pool.reservations);
    }
    assert done == Candidates(pool);
    return Exhausted, k;
  }

  /** The inner loop: the addresses of one range, until one is had, an error comes, or the largest address is taken. */
  method TryRange(api: ApiServer, pool: Pool, req: Request, node: string, ips: seq<Addr>, ghost before: seq<Addr>)
    returns (stop: bool, answer: DynamicReply, ghost done: seq<Addr>)
    requires forall ip :: ip in before ==> BlockedIp(api.cluster, api.nameOf, pool, req.claim, ip)
    modifies api
    ensures forall ip :: ip in done ==> BlockedIp(old(api.cluster), api.nameOf, pool, req.claim, ip)
    ensures !stop ==> done == before + Tried(ips, pool.reservations) && api.cluster == old(api.cluster) && api.failures == old(api.failures)
    ensures stop ==>
              && done < before + Tried(ips, pool.reservations) && !answer.Exhausted?
              && DynamicOutcome(old(api.cluster), api.cluster, api.nameOf, pool, req, node,
                                before + Tried(ips, pool.reservations), answer, |done|, api.failures != old(api.failures))
  {
    done := before;
    ghost var c := api.cluster;
    ghost var all := before + Tried(ips, pool.reservations);
    for j := 0 to |ips|
      invariant api.cluster == c && api.failures == old(api.failures) && done + Tried(ips[j..], pool.reservations) == all
      invariant forall ip :: ip in done ==> BlockedIp(c, api.nameOf, pool, req.claim, ip)
    {
      var ip := ips[j];
      ghost var rest := Tried(ips[j..], pool.reservations);
      if InRanges(ip, pool.reservations) {
        continue;
      }
      assert rest[0] == ip && all == done + rest && all[|done|] == ip;
      var reserved := Reserve(api, Wanted(pool, ip, Dynamic, req, node));
      if reserved == Reserved {
        return true, Assigned(AddressText(pool, ip)), done;
      }
      if reserved != Taken {
        return true, DynamicError, done;
      }
      done := done + [ip];
      if ip == MAX_ADDRESS {
        assert done == all;
        return false, Exhausted, done;
      }
    }
    return false, Exhausted, done;
  }

  // ---------------------------------------------------------------- applyIPAM

  /** The allocation backs this pool and address for the claim. */
  predicate Backs(c: Cluster, claim: string, name: string, pool: string, address: string) {
    name in c.objects && Matches(name, c.objects[name], pool, address, claim)
  }

  lemma WantedBacks(c: Cluster, nameOf: (string, string) -> string, pool: Pool, ip: Addr, kind: Kind, req: Request, node: string)
    requires !Blank(pool.name) && req.claim != "" && UsableIp(c, nameOf, pool, req.claim, ip)
    ensures var address := AddressText(pool, ip);
            Backs(After(c, nameOf, Wanted(pool, ip, kind, req, node)), req.claim, nameOf(pool.name, address), pool.name, address)
  {
    AddressNotBlank(ip, pool.subnet.ones);
  }

  lemma AddressNotBlank(ip: Addr, ones: nat)
    ensures !Blank(CidrText(ip, ones))
  {
  }

  datatype Applied = Unpooled | Applied(address: string, backing: string) | Refused

  /** How a claim comes by its address: it has one already, the first candidate that is usable, or the one it asks for. */
  datatype Way = Kept(name: string) | Chosen(k: nat) | Fixed(ip: Addr)

  ghost predicate AppliedBy(c: Cluster, c': Cluster, nameOf: (string, string) -> string, pool: Pool, req: Request, node: string,
                            address: string, way: Way)
    requires pool.subnet.Valid()
  {
    match way
    case Kept(name) =>
      && c' == c && Owns(c, req.claim, name)
      && Parse(name, c.objects[name].raw).value.pool == pool.name && Parse(name, c.objects[name].raw).value.address == address
    case Chosen(k) =>
      && (forall name :: !Owns(c, req.claim, name)) && req.address.NoAddress?
      && DynamicOutcome(c, c', nameOf, pool, req, node, Candidates(pool), Assigned(address), k, false)
    case Fixed(ip) =>
      && (forall name :: !Owns(c, req.claim, name)) && !req.address.NoAddress? && StaticAddress(pool, req.address) == Some(ip)
      && UsableIp(c, nameOf, pool, req.claim, ip) && address == AddressText(pool, ip)
      && c' == After(c, nameOf, Wanted(pool, ip, Static, req, node))
  }

  /** The address that the claim is to be given, as things stand: the one it has from this pool, the first candidate
      that is usable, or the reserved one it asks for if that is usable. */
  ghost predicate Due(c: Cluster, nameOf: (string, string) -> string, pool: Pool, req: Request, address: string)
    requires pool.subnet.Valid()
  {
    if exists name :: Owns(c, req.claim, name) then
      exists name :: Owns(c, req.claim, name)
                     && Parse(name, c.objects[name].raw).value.pool == pool.name && Parse(name, c.objects[name].raw).value.address == address
    else if req.address.NoAddress? then
      exists k: nat :: FirstUsable(c, nameOf, pool, req.claim, Candidates(pool), k) && address == AddressText(pool, Candidates(pool)[k])
    else
      && StaticAddress(pool, req.address).Some? && UsableIp(c, nameOf, pool, req.claim, StaticAddress(pool, req.address).value)
      && address == AddressText(pool, StaticAddress(pool, req.address).value)
  }

  lemma DueOnce(c: Cluster, nameOf: (string, string) -> string, pool: Pool, req: Request, a: string, b: string)
    requires pool.subnet.Valid() && SoleOwned(c, req.claim)
    requires Due(c, nameOf, pool, req, a) && Due(c, nameOf, pool, req, b)
    ensures a == b
  {
    if !(exists name :: Owns(c, req.claim, name)) && req.address.NoAddress? {
      var ips := Candidates(pool);
      var j: nat :| FirstUsable(c, nameOf, pool, req.claim, ips, j) && a == AddressText(pool, ips[j]);
      var k: nat :| FirstUsable(c, nameOf, pool, req.claim, ips, k) && b == AddressText(pool, ips[k]);
      assert !(j < k) && !(k < j);
    }
  }

  /** A dynamic reservation that is answered and assigns nothing had no usable candidate before the first that is not blocked. */
  lemma NoneDue(c: Cluster, c': Cluster, nameOf: (string, string) -> string, pool: Pool, req: Request, node: string, r: DynamicReply, k: nat, j: nat)
    requires DynamicOutcome(c, c', nameOf, pool, req, node, Candidates(pool), r, k, false) && !r.Assigned?
    ensures !FirstUsable(c, nameOf, pool, req.claim, Candidates(pool), j)
  {
    var ips := Candidates(pool);
    if r.DynamicError? {
      assert GarbledIp(c, nameOf, pool, ips[k]);
      assert j < k ==> BlockedIp(c, nameOf, pool, req.claim, ips[j]);
    } else {
      assert j < |ips| ==> ips[j] in ips;
    }
  }

  /** The claim's local record, if there is one, is this pair. */
  predicate LocalAgrees(ips: map<string, IPAllocation>, claim: string, pool: string, address: string) {
    claim in ips ==> ips[claim].pool == pool && ips[claim].address == address
  }

  /** At most one object more, and that one the claim's, and only when the claim had none. */
  ghost predicate GrewByOne(c: Cluster, c': Cluster, nameOf: (string, string) -> string, claim: string) {
    c' == c
    || exists name, raw ::
         && name !in c.objects && c' == Create(c, name, raw) && raw.RawSpec? && raw.claim.uid == claim
         && name == nameOf(raw.poolRef, raw.address)
         && forall other :: !Owns(c, claim, other)
  }

  lemma ReservationGrows(c: Cluster, nameOf: (string, string) -> string, a: Allocation)
    requires forall name :: !Owns(c, a.claim.uid, name)
    ensures GrewByOne(c, After(c, nameOf, a), nameOf, a.claim.uid)
  {
  }

  /** applyIPAM. On success the configured address, the claim's cluster object and the local entry are the
      same pair; an allocation the claim has already is kept, whatever address is asked for now. Unless a call or a
      write fails, a claim with at most one allocation is refused exactly when the pool is unknown or invalid, or no
      address is due to it, or the node has another one recorded for it. */
  method ApplyIPAM(api: ApiServer, store: Store, pools: map<string, Pool>, req: Request, node: string) returns (r: Applied, ghost way: Way)
    requires PoolsWellFormed(pools) && req.claim != ""
    modifies api, store`ips, store`failures
    ensures r.Unpooled? <==> req.pool == ""
    ensures r.Applied? ==> api.failures == old(api.failures) && store.failures == old(store.failures)
    ensures api.failures == old(api.failures) && store.failures == old(store.failures) && req.pool != ""
            && old(SoleOwned(api.cluster, req.claim)) ==>
              (r.Applied? <==> req.pool in pools && ValidPool(pools[req.pool])
                               && exists address :: Due(old(api.cluster), api.nameOf, pools[req.pool], req, address)
                                                    && LocalAgrees(old(store.ips), req.claim, req.pool, address))
    ensures r.Applied? ==>
              && req.pool in pools && ValidPool(pools[req.pool])
              && AppliedBy(old(api.cluster), api.cluster, api.nameOf, pools[req.pool], req, node, r.address, way)
    ensures r.Applied? ==>
              && req.claim in store.ips && store.ips[req.claim].pool == req.pool && store.ips[req.claim].address == r.address
              && Backs(api.cluster, req.claim, r.backing, req.pool, r.address)
    ensures GrewByOne(old(api.cluster), api.cluster, api.nameOf, req.claim)
    ensures r.Applied? && api.cluster == old(api.cluster) ==> Backs(old(api.cluster), req.claim, r.backing, req.pool, r.address)
    ensures r.Applied? && req.claim in old(store.ips) ==> store.ips == old(store.ips)
    ensures store.ips == old(store.ips) || (req.claim !in old(store.ips) && store.ips.Keys == old(store.ips.Keys) + {req.claim}
                                            && store.ips - {req.claim} == old(store.ips))
  {
    way := Kept("");
    if req.pool == "" {
      return Unpooled, way;
    }
    if req.pool !in pools || !ValidPool(pools[req.pool]) {
      return Refused, way;
    }
    var pool := pools[req.pool];
    var address, backing;
    address, backing, way := ObtainAddress(api, pool, req, node);
    if address.None? {
      return Refused, way;
    }
    var saved := store.ReserveIP(pool.name, address.value, req.claim, req.pod.uid);
    if SoleOwned(old(api.cluster), req.claim) {
      forall other | Due(old(api.cluster), api.nameOf, pool, req, other)
        ensures other == address.value
      {
        DueOnce(old(api.cluster), api.nameOf, pool, req, other, address.value);
      }
    }
    return if saved then Applied(address.value, backing) else Refused, way;
  }

  ghost predicate SoleOwned(c: Cluster, claim: string) {
    forall m, n :: Owns(c, claim, m) && Owns(c, claim, n) ==> m == n
  }

  /** The part of applyIPAM that talks to the cluster: the claim's allocation, looked up or made. */
  method ObtainAddress(api: ApiServer, pool: Pool, req: Request, node: string)
    returns (address: Option<string>, backing: string, ghost way: Way)
    requires ValidPool(pool) && !Blank(pool.name) && req.claim != ""
    modifies api
    ensures address.Some? ==>
              && api.failures == old(api.failures) && Due(old(api.cluster), api.nameOf, pool, req, address.value)
              && AppliedBy(old(api.cluster), api.cluster, api.nameOf, pool, req, node, address.value, way)
              && Backs(api.cluster, req.claim, backing, pool.name, address.value)
    ensures address.None? && api.failures == old(api.failures) && old(SoleOwned(api.cluster, req.claim)) ==>
              forall a :: !Due(old(api.cluster), api.nameOf, pool, req, a)
    ensures GrewByOne(old(api.cluster), api.cluster, api.nameOf, req.claim)
  {
    way, backing := Kept(""), "";
    var ok, found := FindForClaim(api, req.claim);
    if !ok {
      return None, backing, way;
    }
    if found.Some? {
      if found.value.pool != pool.name {
        return None, backing, way;
      }
      return Some(found.value.address), found.value.name, Kept(found.value.name);
    }
    address, way := ReserveFresh(api, pool, req, node);
    if address.Some? {
      backing := api.nameOf(pool.name, address.value);
    }
  }

  /** The part of applyIPAM for a claim without an allocation. */
  method ReserveFresh(api: ApiServer, pool: Pool, req: Request, node: string) returns (address: Option<string>, ghost way: Way)
    requires ValidPool(pool) && !Blank(pool.name) && req.claim != "" && forall name :: !Owns(api.cluster, req.claim, name)
    modifies api
    ensures address.Some? ==> Backs(api.cluster, req.claim, api.nameOf(pool.name, address.value), pool.name, address.value)
    ensures address.Some? ==> AppliedBy(old(api.cluster), api.cluster, api.nameOf, pool, req, node, address.value, way)
    ensures address.Some? ==> api.failures == old(api.failures) && Due(old(api.cluster), api.nameOf, pool, req, address.value)
    ensures address.None? && api.failures == old(api.failures) ==> forall a :: !Due(old(api.cluster), api.nameOf, pool, req, a)
    ensures GrewByOne(old(api.cluster), api.cluster, api.nameOf, req.claim)
  {
    way := Kept("");
    if req.address.NoAddress? {
      var r;
      ghost var k;
      r, k := ReserveDynamicAddress(api, pool, req, node);
      if k < |Candidates(pool)| {
        ReservationGrows(old(api.cluster), api.nameOf, Wanted(pool, Candidates(pool)[k], Dynamic, req, node));
      }
      if !r.Assigned? {
        if api.failures == old(api.failures) {
          forall j: nat
            ensures !FirstUsable(old(api.cluster), api.nameOf, pool, req.claim, Candidates(pool), j)
          {
            NoneDue(old(api.cluster), api.cluster, api.nameOf, pool, req, node, r, k, j);
          }
        }
        return None, way;
      }
      WantedBacks(old(api.cluster), api.nameOf, pool, Candidates(pool)[k], Dynamic, req, node);
      return Some(r.address), Chosen(k);
    }
    var fixed := StaticAddress(pool, req.address);
    if fixed.None? {
      return None, way;
    }
    var wanted := Wanted(pool, fixed.value, Static, req, node);
    ReservationGrows(api.cluster, api.nameOf, wanted);
    var reserved := Reserve(api, wanted);
    if reserved != Reserved {
      return None, way;
    }
    WantedBacks(old(api.cluster), api.nameOf, pool, fixed.value, Static, req, node);
    return Some(AddressText(pool, fixed.value)), Fixed(fixed.value);
  }

  // ---------------------------------------------------------------- two devices

  /** Well-formed allocations are under the names derived from them, as in every run of the protocol. */
  ghost predicate CanonicalNames(c: Cluster, nameOf: (string, string) -> string) {
    forall name :: name in c.objects && Parse(name, c.objects[name].raw).Some? ==>
      name == nameOf(Parse(name, c.objects[name].raw).value.pool, Parse(name, c.objects[name].raw).value.address)
  }

  lemma GrewKeeps(c: Cluster, c': Cluster, nameOf: (string, string) -> string, claim: string)
    requires GrewByOne(c, c', nameOf, claim)
    ensures CanonicalNames(c, nameOf) ==> CanonicalNames(c', nameOf)
    ensures forall name :: name in c.objects ==> name in c'.objects && c'.objects[name] == c.objects[name]
  {
  }

  /** Two devices on one pool share an address exactly when they belong to one claim: the second is given the
      allocation that the claim has. */
  method ApplyToTwo(api: ApiServer, store: Store, pools: map<string, Pool>, req: Request, req': Request, node: string)
    returns (r: Applied, r': Applied)
    requires PoolsWellFormed(pools) && req.claim != "" && req'.claim != "" && req.pool == req'.pool
    requires CanonicalNames(api.cluster, api.nameOf)
    modifies api, store`ips, store`failures
    ensures CanonicalNames(api.cluster, api.nameOf)
    ensures r.Applied? && r'.Applied? ==> (r.address == r'.address <==> req.claim == req'.claim)
  {
    ghost var way;
    ghost var c0 := api.cluster;
    r, way := ApplyIPAM(api, store, pools, req, node);
    GrewKeeps(c0, api.cluster, api.nameOf, req.claim);
    ghost var c1 := api.cluster;
    r', way := ApplyIPAM(api, store, pools, req', node);
    GrewKeeps(c1, api.cluster, api.nameOf, req'.claim);
    assert r.Applied? ==> Backs(api.cluster, req.claim, r.backing, req.pool, r.address);
  }
}
