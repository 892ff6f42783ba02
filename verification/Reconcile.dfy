/** The controller's reconcile while nobody else interferes: which allocations stay, what the pools' status says. */
module Reconcile {
  import opened Text
  import opened Allocations
  import opened Protocol
  import opened Api

  // ---------------------------------------------------------------- allocations

  /** A well-formed allocation whose claim still exists with the recorded UID. */
  predicate Survives(c: Cluster, name: string) {
    && name in c.objects && Parse(name, c.objects[name].raw).Some?
    && var claim := Parse(name, c.objects[name].raw).value.claim;
       var key := ClaimKey(claim.namespace, claim.name);
       key in c.live && c.live[key] == claim.uid
  }

  predicate Stale(c: Cluster, name: string) {
    name in c.objects && Parse(name, c.objects[name].raw).Some? && !Survives(c, name)
  }

  /** What a reconcile leaves: everything that is not stale, so also what is malformed. */
  function Kept(c: Cluster): map<string, Object> {
    map name | name in c.objects && !Stale(c, name) :: c.objects[name]
  }

  /** Some stale allocations are gone; nothing else has changed. */
  ghost predicate Sweeping(before: Cluster, after: Cluster) {
    && after == before.(objects := after.objects)
    && after.objects.Keys <= before.objects.Keys
    && (forall name :: name in after.objects ==> after.objects[name] == before.objects[name])
    && (forall name :: name in before.objects && name !in after.objects ==> Stale(before, name))
  }

  lemma SweepingOn(before: Cluster, after: Cluster, name: string, uid: nat)
    requires Sweeping(before, after) && Stale(before, name)
    ensures Sweeping(before, Delete(after, name, uid, false))
  {
  }

  lemma SweptToTheEnd(before: Cluster, after: Cluster)
    requires Sweeping(before, after) && forall name :: name in after.objects ==> !Stale(before, name)
    ensures after.objects == Kept(before) && NothingStale(after)
  {
  }

  ghost predicate NothingStale(c: Cluster) {
    forall name :: !Stale(c, name)
  }

  // ---------------------------------------------------------------- counts

  datatype PoolCounts = PoolCounts(total: nat, dynamic: nat, fixed: nat)

  const ZERO := PoolCounts(0, 0, 0)

  function PoolOf(c: Cluster, name: string): string
    requires Survives(c, name)
  {
    Parse(name, c.objects[name].raw).value.pool
  }

  predicate IsStatic(c: Cluster, name: string)
    requires Survives(c, name)
  {
    Parse(name, c.objects[name].raw).value.allocationType == STATIC
  }

  /** The surviving allocations of a pool among these names; of them the static and the other ones. */
  ghost function InPool(c: Cluster, names: set<string>, pool: string): set<string> {
    set name | name in names && Survives(c, name) && PoolOf(c, name) == pool
  }

  ghost function StaticInPool(c: Cluster, names: set<string>, pool: string): set<string> {
    set name | name in names && Survives(c, name) && PoolOf(c, name) == pool && IsStatic(c, name)
  }

  ghost function DynamicInPool(c: Cluster, names: set<string>, pool: string): set<string> {
    set name | name in names && Survives(c, name) && PoolOf(c, name) == pool && !IsStatic(c, name)
  }

  ghost function Tally(c: Cluster, names: set<string>, pool: string): (r: PoolCounts) {
    PoolCounts(|InPool(c, names, pool)|, |DynamicInPool(c, names, pool)|, |StaticInPool(c, names, pool)|)
  }

  /** Dynamic and static add up to the total. */
  lemma TallyAddsUp(c: Cluster, names: set<string>, pool: string)
    ensures Tally(c, names, pool).dynamic + Tally(c, names, pool).fixed == Tally(c, names, pool).total
  {
    assert InPool(c, names, pool) == DynamicInPool(c, names, pool) + StaticInPool(c, names, pool);
  }

  function CountOf(counts: map<string, PoolCounts>, pool: string): PoolCounts {
    if pool in counts then counts[pool] else ZERO
  }

  function Counted(count: PoolCounts, isStatic: bool): PoolCounts {
    PoolCounts(count.total + 1, if isStatic then count.dynamic else count.dynamic + 1, if isStatic then count.fixed + 1 else count.fixed)
  }

  lemma TallySkips(c: Cluster, names: set<string>, name: string, pool: string)
    requires name !in names && !(Survives(c, name) && PoolOf(c, name) == pool)
    ensures Tally(c, names + {name}, pool) == Tally(c, names, pool)
  {
    assert InPool(c, names + {name}, pool) == InPool(c, names, pool);
    assert StaticInPool(c, names + {name}, pool) == StaticInPool(c, names, pool);
    assert DynamicInPool(c, names + {name}, pool) == DynamicInPool(c, names, pool);
  }

  lemma TallyAdds(c: Cluster, names: set<string>, name: string)
    requires name !in names && Survives(c, name)
    ensures Tally(c, names + {name}, PoolOf(c, name)) == Counted(Tally(c, names, PoolOf(c, name)), IsStatic(c, name))
  {
    var pool := PoolOf(c, name);
    assert InPool(c, names + {name}, pool) == InPool(c, names, pool) + {name};
    SortedAdds(c, names, name);
    OneLarger(InPool(c, names, pool), name);
    OneLarger(if IsStatic(c, name) then StaticInPool(c, names, pool) else DynamicInPool(c, names, pool), name);
  }

  lemma OneLarger(names: set<string>, name: string)
    requires name !in names
    ensures |names + {name}| == |names| + 1
  {
  }

  lemma SortedAdds(c: Cluster, names: set<string>, name: string)
    requires name !in names && Survives(c, name)
    ensures var pool := PoolOf(c, name);
            if IsStatic(c, name) then
              && StaticInPool(c, names + {name}, pool) == StaticInPool(c, names, pool) + {name}
              && DynamicInPool(c, names + {name}, pool) == DynamicInPool(c, names, pool)
            else
              && StaticInPool(c, names + {name}, pool) == StaticInPool(c, names, pool)
              && DynamicInPool(c, names + {name}, pool) == DynamicInPool(c, names, pool) + {name}
  {
  }

  /** The counts map is right for every pool, those without any allocation included. */
  ghost predicate Counts(c: Cluster, names: set<string>, counts: map<string, PoolCounts>) {
    forall pool :: CountOf(counts, pool) == Tally(c, names, pool)
  }

  lemma CountsSkip(c: Cluster, names: set<string>, counts: map<string, PoolCounts>, name: string)
    requires Counts(c, names, counts) && name !in names && !Survives(c, name)
    ensures Counts(c, names + {name}, counts)
  {
    forall pool
      ensures CountOf(counts, pool) == Tally(c, names + {name}, pool)
    {
      TallySkips(c, names, name, pool);
    }
  }

  lemma CountsAdd(c: Cluster, names: set<string>, counts: map<string, PoolCounts>, name: string)
    requires Counts(c, names, counts) && name !in names && Survives(c, name)
    ensures Counts(c, names + {name}, counts[PoolOf(c, name) := Counted(CountOf(counts, PoolOf(c, name)), IsStatic(c, name))])
  {
    forall pool
      ensures CountOf(counts[PoolOf(c, name) := Counted(CountOf(counts, PoolOf(c, name)), IsStatic(c, name))], pool)
              == Tally(c, names + {name}, pool)
    {
      if pool == PoolOf(c, name) {
        TallyAdds(c, names, name);
      } else {
        TallySkips(c, names, name, pool);
      }
    }
  }

  /** The survivors are those of the swept cluster. */
  lemma TallyAfterSweep(before: Cluster, after: Cluster, pool: string)
    requires Sweeping(before, after)
    ensures Tally(after, after.objects.Keys, pool) == Tally(before, before.objects.Keys, pool)
  {
    forall name
      ensures Survives(after, name) <==> Survives(before, name)
    {
      if Survives(before, name) {
        assert !Stale(before, name);
      }
    }
    assert InPool(after, after.objects.Keys, pool) == InPool(before, before.objects.Keys, pool);
    assert StaticInPool(after, after.objects.Keys, pool) == StaticInPool(before, before.objects.Keys, pool);
    assert DynamicInPool(after, after.objects.Keys, pool) == DynamicInPool(before, before.objects.Keys, pool);
  }

  // ---------------------------------------------------------------- pool status

  /** A condition as stored; `plain` when it has no fields but these. */
  datatype Condition = Condition(
    kind: string, status: string, generation: int, lastTransitionTime: string, reason: string, message: string, plain: bool)

  /** A pool's status as stored; `plain` when it has no fields but these. */
  datatype PoolStatus = NoStatus | PoolStatus(counts: PoolCounts, conditions: seq<Condition>, plain: bool)

  datatype PoolObject = PoolObject(generation: int, status: PoolStatus)

  function Conditions(p: PoolObject): seq<Condition> {
    if p.status.NoStatus? then [] else p.status.conditions
  }

  predicate SaysReady(c: Condition) {
    c.kind == "Ready" && c.status == "True" && c.lastTransitionTime != ""
  }

  /** Since when the pool has been ready, by the first condition that says so. */
  function ReadySince(conditions: seq<Condition>): Option<string> {
    if conditions == [] then None
    else if SaysReady(conditions[0]) then Some(conditions[0].lastTransitionTime)
    else ReadySince(conditions[1..])
  }

  function StatusFor(count: PoolCounts, generation: int, since: string): PoolStatus {
    PoolStatus(count, [Condition("Ready", "True", generation, since, "Reconciled", "IP allocations are reconciled", true)], true)
  }

  ghost predicate UpToDate(p: PoolObject, count: PoolCounts) {
    p.status.PoolStatus? && ReadySince(Conditions(p)).Some? && p.status == StatusFor(count, p.generation, ReadySince(Conditions(p)).value)
  }

  /** The pool has the one condition that it is ready, for its present generation. */
  predicate Stands(p: PoolObject) {
    && p.status.PoolStatus? && p.status.plain && |p.status.conditions| == 1
    && var ready := p.status.conditions[0];
       && ready.kind == "Ready" && ready.status == "True" && ready.generation == p.generation && ready.plain
       && ready.lastTransitionTime != "" && ready.reason == "Reconciled" && ready.message == "IP allocations are reconciled"
  }

  /** What a status that is up to date says, field by field. */
  lemma UpToDateReads(p: PoolObject, count: PoolCounts)
    requires UpToDate(p, count)
    ensures p.status.counts == count && Stands(p)
  {
    assert Conditions(p)[1..] == [] && ReadySince(Conditions(p)[1..]) == None;
  }

  method Clock() returns (now: string)
    ensures now != ""
  {
    now := *;
    if now == "" {
      now := "2006-01-02T15:04:05Z";
    }
  }

  /** transitionTime: what the pool says already, else the present. */
  method TransitionTime(p: PoolObject) returns (time: string)
    ensures time != ""
    ensures ReadySince(Conditions(p)).Some? ==> time == ReadySince(Conditions(p)).value
  {
    var conditions := Conditions(p);
    for i := 0 to |conditions|
      invariant ReadySince(conditions) == ReadySince(conditions[i..])
    {
      var condition := conditions[i];
      if condition.kind != "Ready" || condition.status != "True" {
        continue;
      }
      if condition.lastTransitionTime != "" {
        return condition.lastTransitionTime;
      }
    }
    time := Clock();
  }

  class PoolApi {
    var pools: map<string, PoolObject>
    ghost var writes: nat    // the write calls made
    ghost var failures: nat  // the calls that were not answered

    method List() returns (ok: bool, names: seq<string>)
      modifies this`failures
      ensures failures == old(failures) + (if ok then 0 else 1)
      ensures ok ==> (forall name :: name in names <==> name in pools)
      ensures ok ==> (forall j, k :: 0 <= j < k < |names| ==> names[j] != names[k])
    {
      ok := *;
      if !ok {
        failures := failures + 1;
      }
      names := [];
      var left := pools.Keys;
      while left != {}
        invariant left <= pools.Keys
        invariant forall name :: name in names <==> name in pools && name !in left
        invariant forall j, k :: 0 <= j < k < |names| ==> names[j] != names[k]
        decreases left
      {
        var name :| name in left;
        names := names + [name];
        left := left - {name};
      }
    }

    /** A status write leaves the rest of the object, its generation included. It may take effect unanswered. */
    method UpdateStatus(name: string, status: PoolStatus) returns (ok: bool)
      requires name in pools
      modifies this
      ensures writes == old(writes) + 1 && failures == old(failures) + (if ok then 0 else 1)
      ensures pools == old(pools) || pools == old(pools)[name := old(pools[name]).(status := status)]
      ensures ok ==> pools == old(pools)[name := old(pools[name]).(status := status)]
    {
      writes := writes + 1;
      ok := *;
      var effective: bool := *;
      if ok || effective {
        pools := pools[name := pools[name].(status := status)];
      }
      if !ok {
        failures := failures + 1;
      }
    }
  }

  /** What one status update may do to a pool: nothing, or bring its status up to date, keeping its
      transition time if it has one. */
  ghost predicate Refreshed(before: PoolObject, after: PoolObject, count: PoolCounts) {
    after == before
    || ( && after.generation == before.generation && UpToDate(after, count)
         && (ReadySince(Conditions(before)).Some? ==> ReadySince(Conditions(after)) == ReadySince(Conditions(before))))
  }

  ghost predicate AllUpToDate(pools: map<string, PoolObject>, counts: map<string, PoolCounts>) {
    forall name :: name in pools ==> UpToDate(pools[name], CountOf(counts, name))
  }

  /** updatePoolStatuses. Pools that are up to date are not written. */
  method UpdatePoolStatuses(api: PoolApi, counts: map<string, PoolCounts>) returns (ok: bool)
    modifies api
    ensures api.pools.Keys == old(api.pools).Keys
    ensures forall name :: name in old(api.pools) ==> Refreshed(old(api.pools)[name], api.pools[name], CountOf(counts, name))
    ensures ok ==> AllUpToDate(api.pools, counts)
    ensures ok <==> api.failures == old(api.failures)
    ensures old(AllUpToDate(api.pools, counts)) ==> api.writes == old(api.writes) && api.pools == old(api.pools)
  {
    ghost var was := api.pools;
    var names;
    ok, names := api.List();
    if !ok {
      return;
    }
    for i := 0 to |names|
      invariant Halfway(was, api.pools, counts, names, i) && api.failures == old(api.failures)
      invariant AllUpToDate(was, counts) ==> api.writes == old(api.writes) && api.pools == was
    {
      ghost var before := api.pools;
      ok := UpdatePool(api, names[i], CountOf(counts, names[i]));
      OnePoolMore(was, before, api.pools, counts, names, i, ok);
      if !ok {
        return;
      }
    }
    return true;
  }

  /** The pools named before place `i` are up to date, and the others as they were. */
  ghost predicate Halfway(was: map<string, PoolObject>, now: map<string, PoolObject>, counts: map<string, PoolCounts>, names: seq<string>, i: nat)
    requires i <= |names|
  {
    && now.Keys == was.Keys && (forall name :: name in names <==> name in was)
    && (forall j, k :: 0 <= j < k < |names| ==> names[j] != names[k])
    && (forall name :: name in was ==> Refreshed(was[name], now[name], CountOf(counts, name)))
    && (forall name :: name in names[i..] && name in was ==> now[name] == was[name])
    && (forall name :: name in names[..i] && name in now ==> UpToDate(now[name], CountOf(counts, name)))
  }

  lemma OnePoolMore(was: map<string, PoolObject>, before: map<string, PoolObject>, after: map<string, PoolObject>,
                    counts: map<string, PoolCounts>, names: seq<string>, i: nat, ok: bool)
    requires i < |names| && Halfway(was, before, counts, names, i)
    requires after.Keys == before.Keys && (forall other :: other in after && other != names[i] ==> after[other] == before[other])
    requires names[i] in before && Refreshed(before[names[i]], after[names[i]], CountOf(counts, names[i]))
    requires ok ==> UpToDate(after[names[i]], CountOf(counts, names[i]))
    ensures forall name :: name in was ==> Refreshed(was[name], after[name], CountOf(counts, name))
    ensures ok ==> Halfway(was, after, counts, names, i + 1)
  {
    assert names[i] in names[i..] && forall name :: name in names[i + 1..] ==> name in names[i..];
    assert forall name :: name in names[..i + 1] ==> name in names[..i] || name == names[i];
    assert names[i] !in names[i + 1..];
  }

  /** The body of the loop over pools. */
  method UpdatePool(api: PoolApi, name: string, count: PoolCounts) returns (ok: bool)
    requires name in api.pools
    modifies api
    ensures api.pools.Keys == old(api.pools).Keys
    ensures forall other :: other in api.pools && other != name ==> api.pools[other] == old(api.pools)[other]
    ensures Refreshed(old(api.pools)[name], api.pools[name], count)
    ensures ok ==> UpToDate(api.pools[name], count)
    ensures ok <==> api.failures == old(api.failures)
    ensures old(UpToDate(api.pools[name], count)) ==> api.writes == old(api.writes) && api.pools == old(api.pools)
  {
    var pool := api.pools[name];
    var since := TransitionTime(pool);
    var status := StatusFor(count, pool.generation, since);
    assert ReadySince(status.conditions) == Some(since);
    if pool.status == status {
      return true;
    }
    ok := api.UpdateStatus(name, status);
  }

  // ---------------------------------------------------------------- reconcile

  /** Nothing is left to do. */
  ghost predicate Settled(c: Cluster, pools: map<string, PoolObject>) {
    && NothingStale(c)
    && forall name :: name in pools ==> UpToDate(pools[name], Tally(c, c.objects.Keys, name))
  }

  datatype ClaimReply = Claim(uid: string) | NoClaim | ClaimError

  /** A Get of a claim by name. */
  method GetClaimUid(api: ApiServer, key: ClaimKey) returns (r: ClaimReply)
    modifies api`failures
    ensures api.failures == old(api.failures) + (if r.ClaimError? then 1 else 0)
    ensures r.Claim? ==> key in api.cluster.live && r.uid == api.cluster.live[key]
    ensures r.NoClaim? ==> key !in api.cluster.live
  {
    var unreachable: bool := *;
    if unreachable {
      api.failures := api.failures + 1;
      return ClaimError;
    }
    return if key in api.cluster.live then Claim(api.cluster.live[key]) else NoClaim;
  }

  /** allocationIsStale */
  method AllocationIsStale(api: ApiServer, a: Allocation) returns (ok: bool, stale: bool)
    modifies api`failures
    ensures api.failures == old(api.failures) + (if ok then 0 else 1)
    ensures var key := ClaimKey(a.claim.namespace, a.claim.name);
            ok ==> (stale <==> key !in api.cluster.live || api.cluster.live[key] != a.claim.uid)
  {
    var claim := GetClaimUid(api, ClaimKey(a.claim.namespace, a.claim.name));
    match claim
    case NoClaim => return true, true;
    case ClaimError => return false, false;
    case Claim(uid) => return true, uid != a.claim.uid;
  }

  ghost function Names(items: seq<Item>): set<string> {
    set item | item in items :: item.name
  }

  lemma NamesGrow(objects: map<string, Object>, items: seq<Item>, i: nat)
    requires Lists(objects, items) && i < |items|
    ensures items[i].name in objects && items[i].name !in Names(items[..i])
    ensures Names(items[..i + 1]) == Names(items[..i]) + {items[i].name}
  {
  }

  lemma NamesOfAll(objects: map<string, Object>, items: seq<Item>)
    requires Lists(objects, items)
    ensures Names(items) == objects.Keys
  {
  }

  /** The loop over the listed allocations: the stale ones are deleted, the others counted. */
  method SweepAndCount(api: ApiServer) returns (ok: bool, counts: map<string, PoolCounts>)
    modifies api
    ensures Sweeping(old(api.cluster), api.cluster)
    ensures ok ==> api.cluster.objects == Kept(old(api.cluster)) && NothingStale(api.cluster)
    ensures ok ==> Counts(old(api.cluster), old(api.cluster).objects.Keys, counts)
    ensures (ok ==> api.failures == old(api.failures)) && (api.installed && api.failures == old(api.failures) ==> ok)
    ensures old(NothingStale(api.cluster)) ==> api.writes == old(api.writes) && api.cluster == old(api.cluster)
  {
    counts := map[];
    ghost var c := api.cluster;
    var list := api.List();
    if !list.Listed? {
      return false, counts;
    }
    ok, counts := SweepListed(api, list.items);
    if ok {
      NamesOfAll(c.objects, list.items);
      SweptToTheEnd(c, api.cluster);
    }
  }

  method SweepListed(api: ApiServer, items: seq<Item>) returns (ok: bool, counts: map<string, PoolCounts>)
    requires Lists(api.cluster.objects, items)
    modifies api
    ensures Sweeping(old(api.cluster), api.cluster)
    ensures ok ==> forall name :: name in Names(items) && Stale(old(api.cluster), name) ==> name !in api.cluster.objects
    ensures ok ==> Counts(old(api.cluster), Names(items), counts)
    ensures ok <==> api.failures == old(api.failures)
    ensures old(NothingStale(api.cluster)) ==> api.writes == old(api.writes) && api.cluster == old(api.cluster)
  {
    counts := map[];
    ghost var c := api.cluster;
    for i := 0 to |items|
      invariant Sweeping(c, api.cluster) && api.failures == old(api.failures)
      invariant forall name :: name in Names(items[..i]) && Stale(c, name) ==> name !in api.cluster.objects
      invariant Counts(c, Names(items[..i]), counts)
      invariant NothingStale(c) ==> api.writes == old(api.writes) && api.cluster == c
    {
      assert items[i] in items;
      NamesGrow(c.objects, items, i);
      ok, counts := HandleOne(api, items[i], counts, c, Names(items[..i]));
      if !ok {
        return false, counts;
      }
    }
    assert items[..|items|] == items;
    return true, counts;
  }

  method HandleOne(api: ApiServer, item: Item, counts: map<string, PoolCounts>, ghost c: Cluster, ghost seen: set<string>)
    returns (ok: bool, counts': map<string, PoolCounts>)
    requires Sweeping(c, api.cluster) && Counts(c, seen, counts)
    requires item.name in c.objects && c.objects[item.name] == item.stored && item.name !in seen
    modifies api
    ensures Sweeping(c, api.cluster) && api.cluster.objects.Keys <= old(api.cluster).objects.Keys
    ensures ok ==> (Stale(c, item.name) ==> item.name !in api.cluster.objects)
    ensures ok ==> Counts(c, seen + {item.name}, counts')
    ensures ok <==> api.failures == old(api.failures)
    ensures !Stale(c, item.name) ==> api.writes == old(api.writes) && api.cluster == old(api.cluster)
  {
    counts' := counts;
    var parsed := Parse(item.name, item.stored.raw);
    if parsed.None? {
      CountsSkip(c, seen, counts, item.name);
      return true, counts;
    }
    var a := parsed.value;
    var stale;
    ok, stale := AllocationIsStale(api, a);
    if !ok {
      return false, counts;
    }
    if stale {
      CountsSkip(c, seen, counts, item.name);
      SweepingOn(c, api.cluster, item.name, item.stored.uid);
      var deleted := api.Delete(item.name, item.stored.uid, false);
      return !deleted.DeleteConflict? && !deleted.DeleteError?, counts;
    }
    CountsAdd(c, seen, counts, item.name);
    counts' := CountOne(counts, a);
    return true, counts';
  }

  method CountOne(counts: map<string, PoolCounts>, a: Allocation) returns (counts': map<string, PoolCounts>)
    ensures counts' == counts[a.pool := Counted(CountOf(counts, a.pool), a.allocationType == STATIC)]
  {
    var count := CountOf(counts, a.pool);
    count := count.(total := count.total + 1);
    if a.allocationType == STATIC {
      count := count.(fixed := count.fixed + 1);
    } else {
      count := count.(dynamic := count.dynamic + 1);
    }
    counts' := counts[a.pool := count];
  }

  /** Reconcile. It removes only stale allocations; success removes all of them and brings every pool's status
      up to date; and when nothing is left to do it writes nothing. It succeeds exactly when no call fails, malformed
      objects or not, once the kind is installed. */
  method Reconcile(api: ApiServer, pools: PoolApi) returns (ok: bool)
    modifies api, pools
    ensures ok ==> api.failures == old(api.failures) && pools.failures == old(pools.failures)
    ensures api.installed && api.failures == old(api.failures) && pools.failures == old(pools.failures) ==> ok
    ensures Sweeping(old(api.cluster), api.cluster)
    ensures ok ==> api.cluster.objects == Kept(old(api.cluster)) && Settled(api.cluster, pools.pools)
    ensures pools.pools.Keys == old(pools.pools).Keys
    ensures forall name :: name in old(pools.pools) ==>
              Refreshed(old(pools.pools)[name], pools.pools[name], Tally(api.cluster, api.cluster.objects.Keys, name))
    ensures old(Settled(api.cluster, pools.pools)) ==>
              && api.cluster == old(api.cluster) && pools.pools == old(pools.pools)
              && api.writes == old(api.writes) && pools.writes == old(pools.writes)
  {
    var counts;
    ok, counts := SweepAndCount(api);
    if !ok {
      return;
    }
    forall name
      ensures CountOf(counts, name) == Tally(api.cluster, api.cluster.objects.Keys, name)
    {
      TallyAfterSweep(old(api.cluster), api.cluster, name);
    }
    ok := UpdatePoolStatuses(pools, counts);
  }

  /** A reconcile right after a successful one performs no writes. */
  method ReconcileAgain(api: ApiServer, pools: PoolApi) returns (first: bool, second: bool, ghost writes: int)
    modifies api, pools
    ensures first ==> writes == 0 && api.cluster.objects == Kept(old(api.cluster))
    ensures first ==> forall name :: name in pools.pools ==>
              && pools.pools[name].status.PoolStatus?
              && pools.pools[name].status.counts == Tally(api.cluster, api.cluster.objects.Keys, name)
              && pools.pools[name].status.counts.total == pools.pools[name].status.counts.dynamic + pools.pools[name].status.counts.fixed
              && Stands(pools.pools[name])
  {
    first := Reconcile(api, pools);
    ghost var made := api.writes + pools.writes;
    second := Reconcile(api, pools);
    writes := api.writes + pools.writes - made;
    forall name | name in pools.pools
      ensures Tally(api.cluster, api.cluster.objects.Keys, name).dynamic + Tally(api.cluster, api.cluster.objects.Keys, name).fixed
              == Tally(api.cluster, api.cluster.objects.Keys, name).total
    {
      TallyAddsUp(api.cluster, api.cluster.objects.Keys, name);
    }
    if first {
      forall name | name in pools.pools
        ensures Stands(pools.pools[name])
      {
        UpToDateReads(pools.pools[name], Tally(api.cluster, api.cluster.objects.Keys, name));
      }
    }
  }
}
