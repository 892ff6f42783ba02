/** With pool specs that do not change during the run, every allocation ever made fits its pool. */
module PoolDiscipline {
  import opened Text
  import opened Ipv4
  import opened Pools
  import opened Allocations
  import opened Protocol
  import opened ProtocolInvariant
  import opened ProtocolTheorems

  /** Where an address of this kind may lie. */
  ghost predicate Fits(pool: Pool, kind: string, ip: Addr) {
    && ValidPool(pool) && pool.subnet.Contains(ip)
    && ( || (kind == DYNAMIC && InRanges(ip, pool.allocations) && !InRanges(ip, pool.reservations))
         || (kind == STATIC && InRanges(ip, pool.reservations)))
  }

  /** The allocation's text is the canonical CIDR text of an address that fits its pool. */
  ghost predicate Admissible(pools: map<string, Pool>, a: Allocation) {
    && a.pool in pools
    && exists ip: Addr :: a.address == CidrText(ip, pools[a.pool].subnet.ones) && Fits(pools[a.pool], a.allocationType, ip)
  }

  ghost predicate RestFits(t: Prepare) {
    t.Creating? || t.Getting? ==> forall i :: 0 <= i < |t.rest| ==> Fits(t.pool, t.kind.Text(), t.rest[i])
  }

  ghost predicate ThreadFits(pools: map<string, Pool>, t: Prepare) {
    t.pool.name in pools && t.pool == pools[t.pool.name] && ValidPool(t.pool) && RestFits(t)
  }

  ghost predicate PoolInv(s: State) {
    && (forall u :: u in s.cluster.history && s.cluster.history[u].Parsed().Some? ==>
          Admissible(s.cluster.pools, s.cluster.history[u].Parsed().value))
    && (forall n :: n in s.prepares ==> ThreadFits(s.cluster.pools, s.prepares[n]))
  }

  ghost predicate PoolsFixed(events: seq<Event>) {
    forall i :: 0 <= i < |events| ==> !(events[i].World? && events[i].outside.PoolsEdit?)
  }

  /** Every candidate fits as Dynamic; a normalized request fits as Static. */
  lemma FirstCandidatesFit(s: State, node: string)
    requires node in s.prepares && s.prepares[node].Finding? && ValidPool(s.prepares[node].pool)
    ensures var s' := Find(s, node, None);
            node in s'.prepares ==> s'.prepares[node].pool == s.prepares[node].pool && RestFits(s'.prepares[node])
  {
    var t := s.prepares[node];
    if t.req.address.NoAddress? {
      forall ip | ip in Candidates(t.pool)
        ensures Fits(t.pool, DYNAMIC, ip)
      {
        CandidateAdmissible(t.pool, ip);
      }
    }
  }

  /** The pools and the other node's prepare are as before. */
  predicate OthersSame(s: State, s': State, other: string) {
    && s'.cluster.pools == s.cluster.pools
    && (other in s'.prepares <==> other in s.prepares)
    && (other in s.prepares ==> s'.prepares[other] == s.prepares[other])
  }

  /** A step of one node's prepare touches no other node's, and no pool. */
  lemma PrepareIsLocal(env: Env, s: State, node: string, p: PrepareStep, other: string)
    requires PrepareEnabled(env, s, node, p) && other != node
    ensures OthersSame(s, PrepareNext(env, s, node, p), other)
  {
    match p
    case FindClaim(hit) => FindIsLocal(s, node, hit, other);
    case CreateNext(answered) => CreateIsLocal(env, s, node, answered, other);
    case GetTaken => GetIsLocal(env, s, node, other);
    case SaveLocal =>
    case _ =>
  }

  lemma FindIsLocal(s: State, node: string, hit: Option<string>, other: string)
    requires node in s.prepares && s.prepares[node].Finding? && s.prepares[node].pool.subnet.Valid() && other != node
    requires hit.Some? ==> Owns(s.cluster, s.prepares[node].req.claim, hit.value)
    ensures OthersSame(s, Find(s, node, hit), other)
  {
  }

  lemma CreateIsLocal(env: Env, s: State, node: string, answered: bool, other: string)
    requires node in s.prepares && s.prepares[node].Creating? && s.prepares[node].rest != [] && other != node
    ensures OthersSame(s, TryCreate(env, s, node, answered), other)
  {
  }

  lemma GetIsLocal(env: Env, s: State, node: string, other: string)
    requires node in s.prepares && s.prepares[node].Getting? && s.prepares[node].rest != [] && other != node
    ensures OthersSame(s, TryGet(env, s, node), other)
  {
  }

  /** The node's prepare, if it goes on, still fits its pool. */
  ghost predicate StillFits(s: State, s': State, node: string) {
    node in s'.prepares ==> ThreadFits(s.cluster.pools, s'.prepares[node])
  }

  lemma BeginFits(s: State, node: string, req: Request)
    requires PoolsWellFormed(s.cluster.pools) && req.pool in s.cluster.pools && ValidPool(s.cluster.pools[req.pool])
    ensures StillFits(s, s.(prepares := s.prepares[node := Finding(req, s.cluster.pools[req.pool])]), node)
  {
  }

  lemma FindFits(s: State, node: string, hit: Option<string>)
    requires node in s.prepares && s.prepares[node].Finding? && s.prepares[node].pool.subnet.Valid()
    requires hit.Some? ==> Owns(s.cluster, s.prepares[node].req.claim, hit.value)
    requires ThreadFits(s.cluster.pools, s.prepares[node])
    ensures StillFits(s, Find(s, node, hit), node)
  {
    if hit.None? { FirstCandidatesFit(s, node); }
  }

  lemma CreateFits(env: Env, s: State, node: string, answered: bool)
    requires node in s.prepares && s.prepares[node].Creating? && s.prepares[node].rest != []
    requires ThreadFits(s.cluster.pools, s.prepares[node])
    ensures StillFits(s, TryCreate(env, s, node, answered), node)
  {
  }

  lemma GetFits(env: Env, s: State, node: string)
    requires node in s.prepares && s.prepares[node].Getting? && s.prepares[node].rest != []
    requires Inv(env, s) && ThreadFits(s.cluster.pools, s.prepares[node])
    ensures StillFits(s, TryGet(env, s, node), node)
  {
    assert PrepareInv(env, s.cluster, node, s.prepares[node]);
    var next := GetShape(env, s, node);
    assert RestFits(next);
  }

  lemma SaveFits(s: State, node: string)
    requires node in s.prepares && s.prepares[node].Saving?
    ensures StillFits(s, Save(s, node), node)
  {
  }

  lemma OwnThreadFits(env: Env, s: State, node: string, p: PrepareStep)
    requires Inv(env, s) && PoolInv(s) && PrepareEnabled(env, s, node, p)
    ensures StillFits(s, PrepareNext(env, s, node, p), node)
  {
    match p
    case Begin(req) => BeginFits(s, node, req);
    case FindClaim(hit) => FindFits(s, node, hit);
    case CreateNext(answered) => CreateFits(env, s, node, answered);
    case GetTaken => GetFits(env, s, node);
    case SaveLocal => SaveFits(s, node);
    case GiveUp =>
  }

  lemma PrepareKeepsPools(env: Env, s: State, node: string, p: PrepareStep)
    requires Inv(env, s) && PoolInv(s) && PrepareEnabled(env, s, node, p)
    ensures var s' := PrepareNext(env, s, node, p);
            && s'.cluster.pools == s.cluster.pools
            && forall n :: n in s'.prepares ==> ThreadFits(s.cluster.pools, s'.prepares[n])
  {
    var s' := PrepareNext(env, s, node, p);
    PrepareIsLocal(env, s, node, p, node + ['/']);
    forall n | n in s'.prepares
      ensures ThreadFits(s.cluster.pools, s'.prepares[n])
    {
      if n == node {
        OwnThreadFits(env, s, node, p);
      } else {
        PrepareIsLocal(env, s, node, p, n);
      }
    }
  }

  lemma PrepareMakesAdmissible(env: Env, s: State, node: string, p: PrepareStep, u: nat)
    requires Inv(env, s) && PoolInv(s) && PrepareEnabled(env, s, node, p)
    requires var s' := PrepareNext(env, s, node, p); u in s'.cluster.history && s'.cluster.history[u].Parsed().Some?
    ensures Admissible(s.cluster.pools, PrepareNext(env, s, node, p).cluster.history[u].Parsed().value)
  {
    if p.CreateNext? && NameFor(env, s.prepares[node]) !in s.cluster.objects {
      var t := s.prepares[node];
      assert PrepareInv(env, s.cluster, node, t);
      DriverSpecParses(env, s.cluster, node, t);
      if u == s.cluster.nextUid {
        assert Fits(t.pool, t.kind.Text(), t.rest[0]);
      }
    } else {
      PrepareLeavesCluster(env, s, node, p);
    }
  }

  lemma WorldMakesNothing(c: Cluster, o: Outside)
    requires WorldEnabled(c, o) && !o.PoolsEdit?
    ensures WorldStep(c, o).pools == c.pools
    ensures forall u :: u in WorldStep(c, o).history && WorldStep(c, o).history[u].Parsed().Some? ==>
              u in c.history && WorldStep(c, o).history[u] == c.history[u]
  {
  }

  lemma OthersMakeNothing(env: Env, s: State, e: Event)
    requires Enabled(env, s, e) && (e.InRelease? || e.InSweep?)
    ensures MakesNothing(s, Step(env, s, e))
  {
    match e
    case InRelease(thread, r) => ReleaseMakesNothing(s, thread, r);
    case InSweep(thread, w) => SweepMakesNothing(s, thread, w);
  }

  predicate MakesNothing(s: State, s': State) {
    s'.cluster.pools == s.cluster.pools && s'.prepares == s.prepares && s'.cluster.history == s.cluster.history
  }

  lemma ReleaseMakesNothing(s: State, thread: nat, r: ReleaseStep)
    requires ReleaseEnabled(s, thread, r)
    ensures MakesNothing(s, ReleaseNext(s, thread, r))
  {
  }

  lemma SweepMakesNothing(s: State, thread: nat, w: SweepStep)
    requires SweepEnabled(s, thread, w)
    ensures MakesNothing(s, SweepNext(s, thread, w))
  {
  }

  lemma StepKeepsPools(env: Env, s: State, e: Event)
    requires Inv(env, s) && PoolInv(s) && Enabled(env, s, e) && !(e.World? && e.outside.PoolsEdit?)
    ensures PoolInv(Step(env, s, e))
  {
    var s' := Step(env, s, e);
    if e.OnNode? {
      PrepareKeepsPools(env, s, e.node, e.prepare);
      forall u | u in s'.cluster.history && s'.cluster.history[u].Parsed().Some?
        ensures Admissible(s'.cluster.pools, s'.cluster.history[u].Parsed().value)
      {
        PrepareMakesAdmissible(env, s, e.node, e.prepare, u);
      }
    } else if e.World? {
      WorldMakesNothing(s.cluster, e.outside);
    } else {
      OthersMakeNothing(env, s, e);
    }
  }

  lemma {:induction false} RunKeepsPools(env: Env, states: seq<State>, events: seq<Event>, i: nat)
    requires IsRun(env, states, events) && PoolsFixed(events) && i < |states|
    ensures PoolInv(states[i])
    decreases i
  {
    if i > 0 {
      RunKeepsPools(env, states, events, i - 1);
      RunKeeps(env, states, events, i - 1);
      StepKeepsPools(env, states[i - 1], events[i - 1]);
    }
  }

  /** Every well-formed allocation lies in its pool's subnet; a Dynamic one in an allocation range and in
      no reservation, a Static one in a reservation. */
  lemma AllocationsFitTheirPool(env: Env, states: seq<State>, events: seq<Event>, i: nat, name: string)
    requires IsRun(env, states, events) && PoolsFixed(events) && i < |states|
    requires name in states[i].cluster.objects && Parse(name, states[i].cluster.objects[name].raw).Some?
    ensures Admissible(states[i].cluster.pools, Parse(name, states[i].cluster.objects[name].raw).value)
  {
    RunKeepsPools(env, states, events, i);
    RunKeeps(env, states, events, i);
    var c := states[i].cluster;
    assert c.history[c.objects[name].uid] == Made(name, c.objects[name].raw);
  }

  /** No two allocations of a pool denote the same 32-bit address, however each is written. */
  lemma OneAllocationPerAddress(env: Env, states: seq<State>, events: seq<Event>, i: nat,
                                m: string, n: string, ip: Addr, x: nat, y: nat)
    requires IsRun(env, states, events) && PoolsFixed(events) && i < |states|
    requires m in states[i].cluster.objects && Parse(m, states[i].cluster.objects[m].raw).Some?
    requires n in states[i].cluster.objects && Parse(n, states[i].cluster.objects[n].raw).Some?
    requires var a := Parse(m, states[i].cluster.objects[m].raw).value;
             var b := Parse(n, states[i].cluster.objects[n].raw).value;
             a.pool == b.pool && a.address == CidrText(ip, x) && b.address == CidrText(ip, y)
    ensures m == n
  {
    AllocationsFitTheirPool(env, states, events, i, m);
    AllocationsFitTheirPool(env, states, events, i, n);
    var c := states[i].cluster;
    var a, b := Parse(m, c.objects[m].raw).value, Parse(n, c.objects[n].raw).value;
    var ones := c.pools[a.pool].subnet.ones;
    var p: Addr :| a.address == CidrText(p, ones);
    var q: Addr :| b.address == CidrText(q, ones);
    CidrTextInjective(p, ones, ip, x);
    CidrTextInjective(q, ones, ip, y);
    NoAddressShared(env, states, events, i, m, n);
  }
}
