/** What the handlers do undisturbed is a run of the protocol's steps. */
module Refinement {
  import opened Text
  import opened Ipv4
  import opened Pools
  import opened Allocations
  import opened Protocol
  import opened Ipam
  import opened Reconcile

  /** These events, one after the other, lead from one state to the other. */
  ghost predicate Leads(env: Env, s: State, events: seq<Event>, s': State)
    decreases |events|
  {
    if events == [] then s' == s
    else Enabled(env, s, events[0]) && Leads(env, Step(env, s, events[0]), events[1..], s')
  }

  lemma {:induction false} LeadsOn(env: Env, s: State, first: seq<Event>, s1: State, second: seq<Event>, s2: State)
    requires Leads(env, s, first, s1) && Leads(env, s1, second, s2)
    ensures Leads(env, s, first + second, s2)
    decreases |first|
  {
    if first == [] {
      assert first + second == second;
    } else {
      LeadsOn(env, Step(env, s, first[0]), first[1..], s1, second, s2);
      assert (first + second)[1..] == first[1..] + second;
    }
  }

  lemma OneEvent(env: Env, s: State, e: Event)
    requires Enabled(env, s, e)
    ensures Leads(env, s, [e], Step(env, s, e))
  {
  }

  lemma Then(env: Env, s: State, events: seq<Event>, s1: State, e: Event, s2: State)
    requires Leads(env, s, events, s1) && Enabled(env, s1, e) && s2 == Step(env, s1, e)
    ensures Leads(env, s, events + [e], s2)
  {
    OneEvent(env, s1, e);
    LeadsOn(env, s, events, s1, [e], s2);
  }

  // ---------------------------------------------------------------- trying addresses

  /** The node is about to try these addresses. */
  ghost predicate Tries(s: State, node: string, pool: Pool, req: Request, kind: Kind, ips: seq<Addr>) {
    node in s.prepares && s.prepares[node] == Creating(req, pool, kind, ips) && ips != []
  }

  function Trying(s: State, node: string, pool: Pool, req: Request, ips: seq<Addr>): State {
    CreatingOrDone(s, node, Creating(req, pool, Dynamic, ips))
  }

  const ASK := CreateNext(true)

  /** An address that is taken costs a Create and a Get. */
  lemma BlockedRound(env: Env, s: State, node: string, pool: Pool, req: Request, ips: seq<Addr>)
    requires Tries(s, node, pool, req, Dynamic, ips) && BlockedIp(s.cluster, env.nameOf, pool, req.claim, ips[0])
    ensures Leads(env, s, [OnNode(node, ASK), OnNode(node, GetTaken)], Trying(s, node, pool, req, ips[1..]))
  {
    var events := [OnNode(node, ASK), OnNode(node, GetTaken)];
    var s1 := Step(env, s, events[0]);
    assert s1 == s.(prepares := s.prepares[node := Getting(req, pool, Dynamic, ips)]);
    var s2 := Step(env, s1, events[1]);
    assert s2.prepares == Trying(s, node, pool, req, ips[1..]).prepares;
    assert events[1..] == [events[1]] && events[1..][1..] == [];
    assert Leads(env, s1, events[1..], s2);
  }

  function Rounds(node: string, k: nat): seq<Event> {
    if k == 0 then [] else [OnNode(node, ASK), OnNode(node, GetTaken)] + Rounds(node, k - 1)
  }

  lemma {:induction false} BlockedRounds(env: Env, s: State, node: string, pool: Pool, req: Request, ips: seq<Addr>, k: nat)
    requires Tries(s, node, pool, req, Dynamic, ips) && k <= |ips|
    requires forall j :: 0 <= j < k ==> BlockedIp(s.cluster, env.nameOf, pool, req.claim, ips[j])
    ensures Leads(env, s, Rounds(node, k), Trying(s, node, pool, req, ips[k..]))
    decreases k
  {
    if k == 0 {
      assert s.prepares[node := s.prepares[node]] == s.prepares;
    } else {
      var s1 := Trying(s, node, pool, req, ips[1..]);
      BlockedRound(env, s, node, pool, req, ips);
      if k > 1 {
        BlockedRounds(env, s1, node, pool, req, ips[1..], k - 1);
        assert ips[1..][k - 1..] == ips[k..];
        SameTrying(s, s1, node, pool, req, ips[k..]);
      }
      LeadsOn(env, s, [OnNode(node, ASK), OnNode(node, GetTaken)], s1, Rounds(node, k - 1), Trying(s, node, pool, req, ips[k..]));
    }
  }

  lemma SameTrying(s: State, s1: State, node: string, pool: Pool, req: Request, ips: seq<Addr>)
    requires node in s1.prepares && s1 == s.(prepares := s.prepares[node := s1.prepares[node]])
    ensures Trying(s1, node, pool, req, ips) == Trying(s, node, pool, req, ips)
  {
  }

  /** The node has the address and is about to save it. */
  ghost function Holding(env: Env, s: State, node: string, pool: Pool, req: Request, kind: Kind, ip: Addr): State {
    var name := env.nameOf(pool.name, AddressText(pool, ip));
    var uid := if name in s.cluster.objects then s.cluster.objects[name].uid else s.cluster.nextUid;
    s.(cluster := After(s.cluster, env.nameOf, Wanted(pool, ip, kind, req, node)),
       prepares := s.prepares[node := Saving(req, pool, AddressText(pool, ip), uid)])
  }

  function LastEvents(env: Env, s: State, node: string, pool: Pool, ip: Addr): seq<Event> {
    if env.nameOf(pool.name, AddressText(pool, ip)) in s.cluster.objects then [OnNode(node, ASK), OnNode(node, GetTaken)]
    else [OnNode(node, ASK)]
  }

  lemma UsableIsHeld(env: Env, s: State, node: string, pool: Pool, req: Request, kind: Kind, ips: seq<Addr>)
    requires Tries(s, node, pool, req, kind, ips) && UsableIp(s.cluster, env.nameOf, pool, req.claim, ips[0])
    ensures Leads(env, s, LastEvents(env, s, node, pool, ips[0]), Holding(env, s, node, pool, req, kind, ips[0]))
  {
    var events := LastEvents(env, s, node, pool, ips[0]);
    var s1 := Step(env, s, events[0]);
    if |events| == 1 {
      assert s1 == Holding(env, s, node, pool, req, kind, ips[0]);
      OneEvent(env, s, events[0]);
    } else {
      assert s1 == s.(prepares := s.prepares[node := Getting(req, pool, kind, ips)]);
      GetIsHeld(env, s, s1, node, pool, req, kind, ips);
      OneEvent(env, s, events[0]);
      OneEvent(env, s1, events[1]);
      LeadsOn(env, s, [events[0]], s1, [events[1]], Step(env, s1, events[1]));
      assert events == [events[0]] + [events[1]];
    }
  }

  lemma GetIsHeld(env: Env, s: State, s1: State, node: string, pool: Pool, req: Request, kind: Kind, ips: seq<Addr>)
    requires Tries(s, node, pool, req, kind, ips) && s1 == s.(prepares := s.prepares[node := Getting(req, pool, kind, ips)])
    requires env.nameOf(pool.name, AddressText(pool, ips[0])) in s.cluster.objects
    requires UsableIp(s.cluster, env.nameOf, pool, req.claim, ips[0])
    ensures TryGet(env, s1, node) == Holding(env, s, node, pool, req, kind, ips[0])
  {
  }

  lemma SameHolding(env: Env, s: State, s1: State, node: string, pool: Pool, req: Request, kind: Kind, ip: Addr)
    requires node in s1.prepares && s1 == s.(prepares := s.prepares[node := s1.prepares[node]])
    ensures Holding(env, s1, node, pool, req, kind, ip) == Holding(env, s, node, pool, req, kind, ip)
  {
    var t := Holding(env, s, node, pool, req, kind, ip).prepares[node];
    assert s1.prepares[node := t] == s.prepares[node := t];
  }

  /** An address assigned by the loop is one the protocol reaches, with the same cluster: the node then holds it. */
  lemma AssignedIsARun(env: Env, s: State, node: string, pool: Pool, req: Request, c': Cluster, r: DynamicReply, k: nat)
    requires Tries(s, node, pool, req, Dynamic, Candidates(pool)) && r.Assigned?
    requires DynamicOutcome(s.cluster, c', env.nameOf, pool, req, node, Candidates(pool), r, k, false)
    ensures var events := Rounds(node, k) + LastEvents(env, s, node, pool, Candidates(pool)[k]);
            var s' := Holding(env, s, node, pool, req, Dynamic, Candidates(pool)[k]);
            Leads(env, s, events, s') && s'.cluster == c' && s'.prepares[node].address == r.address
  {
    var ips := Candidates(pool);
    var s1 := Trying(s, node, pool, req, ips[k..]);
    BlockedRounds(env, s, node, pool, req, ips, k);
    UsableIsHeld(env, s1, node, pool, req, Dynamic, ips[k..]);
    SameHolding(env, s, s1, node, pool, req, Dynamic, ips[k]);
    LeadsOn(env, s, Rounds(node, k), s1, LastEvents(env, s, node, pool, ips[k]), Holding(env, s, node, pool, req, Dynamic, ips[k]));
  }

  /** A pool found exhausted by the loop is one on which the protocol's prepare ends without an address. */
  lemma ExhaustedIsARun(env: Env, s: State, node: string, pool: Pool, req: Request, c': Cluster, k: nat)
    requires Tries(s, node, pool, req, Dynamic, Candidates(pool))
    requires DynamicOutcome(s.cluster, c', env.nameOf, pool, req, node, Candidates(pool), Exhausted, k, false)
    ensures Leads(env, s, Rounds(node, |Candidates(pool)|), s.(prepares := s.prepares - {node})) && c' == s.cluster
  {
    var ips := Candidates(pool);
    BlockedRounds(env, s, node, pool, req, ips, |ips|);
    assert ips[|ips|..] == [];
  }

  /** The loop ending with an error is the protocol's prepare ending after a lost Create, or giving up. */
  lemma ErrorIsARun(env: Env, s: State, node: string, pool: Pool, req: Request, c': Cluster, k: nat, failed: bool)
    returns (events: seq<Event>, s': State)
    requires Tries(s, node, pool, req, Dynamic, Candidates(pool))
    requires DynamicOutcome(s.cluster, c', env.nameOf, pool, req, node, Candidates(pool), DynamicError, k, failed)
    ensures Leads(env, s, events, s') && s'.cluster == c' && s'.prepares == s.prepares - {node} && s'.local == s.local
  {
    var ips := Candidates(pool);
    var s1 := Trying(s, node, pool, req, ips[k..]);
    BlockedRounds(env, s, node, pool, req, ips, k);
    s' := s1.(cluster := c', prepares := s1.prepares - {node});
    var last := OnNode(node, if c' == s.cluster then GiveUp else CreateNext(false));
    if c' != s.cluster {
      LostCreate(env, s1, node, pool, req, ips[k..]);
    }
    Then(env, s, Rounds(node, k), s1, last, s');
    events := Rounds(node, k) + [last];
    assert s1.prepares - {node} == s.prepares - {node};
  }

  lemma LostCreate(env: Env, s: State, node: string, pool: Pool, req: Request, ips: seq<Addr>)
    requires Tries(s, node, pool, req, Dynamic, ips)
    requires After(s.cluster, env.nameOf, Wanted(pool, ips[0], Dynamic, req, node)) != s.cluster
    ensures TryCreate(env, s, node, false)
            == s.(cluster := After(s.cluster, env.nameOf, Wanted(pool, ips[0], Dynamic, req, node)), prepares := s.prepares - {node})
  {
  }

  // ---------------------------------------------------------------- a whole prepare

  /** The node's own store has this pair for the claim, or nothing. */
  ghost predicate MaySave(s: State, node: string, req: Request, pool: Pool, address: string) {
    var holder := Holder(node, req.claim);
    holder in s.local ==> s.local[holder].pool == pool.name && s.local[holder].address == address
  }

  /** The prepare is done, and the claim holds the pair on this node. */
  ghost predicate Prepared(s: State, s': State, node: string, req: Request, pool: Pool, address: string) {
    var holder := Holder(node, req.claim);
    && s'.prepares == s.prepares - {node} && s'.releases == s.releases && s'.sweeps == s.sweeps
    && holder in s'.local && s'.local[holder].pool == pool.name && s'.local[holder].address == address
    && forall other :: other != holder ==> (other in s'.local <==> other in s.local) && (other in s.local ==> s'.local[other] == s.local[other])
  }

  lemma SavingIsDone(env: Env, s: State, s1: State, node: string, req: Request, pool: Pool, address: string)
    requires node in s1.prepares && s1 == s.(cluster := s1.cluster, prepares := s.prepares[node := s1.prepares[node]])
    requires s1.prepares[node].Saving? && s1.prepares[node].req == req && s1.prepares[node].pool == pool
    requires s1.prepares[node].address == address && MaySave(s, node, req, pool, address)
    ensures Leads(env, s1, [OnNode(node, SaveLocal)], Save(s1, node))
    ensures Save(s1, node).cluster == s1.cluster && Prepared(s, Save(s1, node), node, req, pool, address)
  {
  }

  lemma LookupMisses(env: Env, s: State, node: string, pool: Pool, req: Request, kind: Kind, ips: seq<Addr>) returns (s1: State)
    requires node in s.prepares && s.prepares[node] == Finding(req, pool) && pool.subnet.Valid()
    requires (forall name :: !Owns(s.cluster, req.claim, name)) && ips != []
    requires if req.address.NoAddress? then kind == Dynamic && ips == Candidates(pool)
             else kind == Static && StaticAddress(pool, req.address) == Some(ips[0]) && |ips| == 1
    ensures s1 == s.(prepares := s.prepares[node := Creating(req, pool, kind, ips)])
    ensures Leads(env, s, [OnNode(node, FindClaim(None))], s1)
  {
    s1 := s.(prepares := s.prepares[node := Creating(req, pool, kind, ips)]);
    OneEvent(env, s, OnNode(node, FindClaim(None)));
    assert ips == [ips[0]] || kind == Dynamic;
    assert Find(s, node, None) == s1;
  }

  /** A successful applyIPAM is a run of the protocol from the same cluster to the same cluster, after which the
      claim holds the same pair on the node. */
  lemma AppliedIsARun(env: Env, s: State, node: string, pool: Pool, req: Request, c': Cluster, address: string, way: Way)
    returns (events: seq<Event>, s': State)
    requires node in s.prepares && s.prepares[node] == Finding(req, pool) && pool.subnet.Valid()
    requires AppliedBy(s.cluster, c', env.nameOf, pool, req, node, address, way) && MaySave(s, node, req, pool, address)
    ensures Leads(env, s, events, s') && s'.cluster == c' && Prepared(s, s', node, req, pool, address)
  {
    var s1;
    events, s1 := ReachesSaving(env, s, node, pool, req, c', address, way);
    SavingIsDone(env, s, s1, node, req, pool, address);
    s' := Save(s1, node);
    LeadsOn(env, s, events, s1, [OnNode(node, SaveLocal)], s');
    events := events + [OnNode(node, SaveLocal)];
  }

  lemma ReachesSaving(env: Env, s: State, node: string, pool: Pool, req: Request, c': Cluster, address: string, way: Way)
    returns (events: seq<Event>, s1: State)
    requires node in s.prepares && s.prepares[node] == Finding(req, pool) && pool.subnet.Valid()
    requires AppliedBy(s.cluster, c', env.nameOf, pool, req, node, address, way)
    ensures Leads(env, s, events, s1) && s1.cluster == c' && node in s1.prepares
    ensures s1 == s.(cluster := c', prepares := s.prepares[node := s1.prepares[node]])
    ensures s1.prepares[node].Saving? && s1.prepares[node].req == req && s1.prepares[node].pool == pool && s1.prepares[node].address == address
  {
    match way
    case Kept(name) =>
      events := [OnNode(node, FindClaim(Some(name)))];
      s1 := Step(env, s, events[0]);
      OneEvent(env, s, events[0]);
    case Chosen(k) =>
      var s0 := LookupMisses(env, s, node, pool, req, Dynamic, Candidates(pool));
      AssignedIsARun(env, s0, node, pool, req, c', Assigned(address), k);
      events, s1 := AfterLookup(env, s, s0, node, pool, req, Dynamic, Candidates(pool)[k],
                                Rounds(node, k) + LastEvents(env, s0, node, pool, Candidates(pool)[k]));
    case Fixed(ip) =>
      var s0 := LookupMisses(env, s, node, pool, req, Static, [ip]);
      UsableIsHeld(env, s0, node, pool, req, Static, [ip]);
      events, s1 := AfterLookup(env, s, s0, node, pool, req, Static, ip, LastEvents(env, s0, node, pool, ip));
  }

  lemma AfterLookup(env: Env, s: State, s0: State, node: string, pool: Pool, req: Request, kind: Kind, ip: Addr, more: seq<Event>)
    returns (events: seq<Event>, s1: State)
    requires node in s0.prepares && s0 == s.(prepares := s.prepares[node := s0.prepares[node]])
    requires Leads(env, s, [OnNode(node, FindClaim(None))], s0) && Leads(env, s0, more, Holding(env, s0, node, pool, req, kind, ip))
    ensures s1 == Holding(env, s, node, pool, req, kind, ip) && Leads(env, s, events, s1)
  {
    SameHolding(env, s, s0, node, pool, req, kind, ip);
    s1 := Holding(env, s, node, pool, req, kind, ip);
    LeadsOn(env, s, [OnNode(node, FindClaim(None))], s0, more, s1);
    events := [OnNode(node, FindClaim(None))] + more;
  }

  // ---------------------------------------------------------------- a whole release

  /** The listed objects are still there. */
  ghost predicate StillListed(c: Cluster, pending: map<string, nat>) {
    forall name :: name in pending ==> name in c.objects && c.objects[name].uid == pending[name]
  }

  /** The thread has something left to delete, all of it as listed. */
  ghost predicate Deletes(s: State, thread: nat) {
    thread in s.releases && s.releases[thread].Deleting? && StillListed(s.cluster, s.releases[thread].pending)
  }

  ghost predicate DeleteRuns(env: Env, s: State, thread: nat, events: seq<Event>, s': State) {
    && Deletes(s, thread) && Leads(env, s, events, s')
    && s' == s.(cluster := s'.cluster, releases := s.releases[thread := s.releases[thread].(pending := map[])])
    && s'.cluster.objects == s.cluster.objects - s.releases[thread].pending.Keys
  }

  lemma {:induction false} DeletesLead(env: Env, s: State, thread: nat, size: nat) returns (events: seq<Event>, s': State)
    requires Deletes(s, thread) && |s.releases[thread].pending| == size
    ensures DeleteRuns(env, s, thread, events, s')
    decreases size
  {
    if size == 0 {
      events, s' := [], s;
      assert s.releases[thread].pending == map[];
      assert s.releases[thread := s.releases[thread]] == s.releases;
    } else {
      assert s.releases[thread].pending != map[];
      var name :| name in s.releases[thread].pending;
      var s1 := DeleteRound(env, s, thread, name);
      SmallerMap(s.releases[thread].pending, name);
      var rest;
      rest, s' := DeletesLead(env, s1, thread, size - 1);
      events := [InRelease(thread, DeleteOwned(name, true))] + rest;
      DeleteStep(env, s, thread, name, s1, rest, s');
    }
  }

  lemma DeleteStep(env: Env, s: State, thread: nat, name: string, s1: State, rest: seq<Event>, s': State)
    requires Deletes(s, thread) && name in s.releases[thread].pending && DeleteRuns(env, s1, thread, rest, s')
    requires Leads(env, s, [InRelease(thread, DeleteOwned(name, true))], s1) && s1.cluster.objects == s.cluster.objects - {name}
    requires s1 == s.(cluster := s1.cluster,
                      releases := s.releases[thread := s.releases[thread].(pending := s.releases[thread].pending - {name})])
    ensures DeleteRuns(env, s, thread, [InRelease(thread, DeleteOwned(name, true))] + rest, s')
  {
    LeadsOn(env, s, [InRelease(thread, DeleteOwned(name, true))], s1, rest, s');
    MinusOneByOne(s.cluster.objects, s.releases[thread].pending, name);
    SetTwice(s.releases, thread, s1.releases[thread], s.releases[thread].(pending := map[]));
  }

  lemma DeleteRound(env: Env, s: State, thread: nat, name: string) returns (s': State)
    requires thread in s.releases && s.releases[thread].Deleting? && StillListed(s.cluster, s.releases[thread].pending)
    requires name in s.releases[thread].pending
    ensures Leads(env, s, [InRelease(thread, DeleteOwned(name, true))], s') && s'.cluster.objects == s.cluster.objects - {name}
    ensures s' == s.(cluster := s'.cluster,
                     releases := s.releases[thread := s.releases[thread].(pending := s.releases[thread].pending - {name})])
    ensures StillListed(s'.cluster, s'.releases[thread].pending)
  {
    OneEvent(env, s, InRelease(thread, DeleteOwned(name, true)));
    s' := ReleaseOne(s, thread, name, true);
  }

  lemma MinusOneByOne<U, V>(objects: map<string, U>, pending: map<string, V>, name: string)
    requires name in pending
    ensures objects - pending.Keys == objects - {name} - (pending - {name}).Keys
  {
  }

  lemma SetTwice<T, U>(m: map<T, U>, k: T, u: U, v: U)
    ensures m[k := u][k := v] == m[k := v]
  {
  }

  lemma SmallerMap<T, U>(m: map<T, U>, k: T)
    requires k in m
    ensures |m - {k}| == |m| - 1
  {
  }

  /** A release in which no call fails is a run of the protocol: it leaves the objects that DeleteForClaim leaves, and
      the node forgets the claim. */
  lemma ReleaseIsARun(env: Env, s: State, thread: nat, node: string, claim: string) returns (events: seq<Event>, s': State)
    requires thread !in s.releases
    ensures Leads(env, s, events, s') && s'.cluster.objects == Unowned(s.cluster, claim)
    ensures s'.local == s.local - {Holder(node, claim)} && s'.releases == s.releases && s'.prepares == s.prepares
  {
    var listed, s1 := ReleaseStarts(env, s, thread, node, claim);
    var deletes, s2 := DeletesLead(env, s1, thread, |s1.releases[thread].pending|);
    LeadsOn(env, s, listed, s1, deletes, s2);
    var last;
    last, s' := ReleaseEnds(env, s2, thread);
    LeadsOn(env, s, listed + deletes, s2, last, s');
    events := listed + deletes + last;
    OwnedTakenAway(s.cluster, claim);
    SetAndDropped(s.releases, thread, s1.releases[thread], s2.releases[thread]);
  }

  lemma OwnedTakenAway(c: Cluster, claim: string)
    ensures c.objects - OwnedBy(c, claim).Keys == Unowned(c, claim)
  {
  }

  lemma ReleaseStarts(env: Env, s: State, thread: nat, node: string, claim: string) returns (events: seq<Event>, s': State)
    requires thread !in s.releases
    ensures Leads(env, s, events, s') && StillListed(s'.cluster, OwnedBy(s.cluster, claim))
    ensures s' == s.(releases := s.releases[thread := Deleting(node, claim, OwnedBy(s.cluster, claim))])
  {
    var e0, e1 := InRelease(thread, BeginRelease(node, claim)), InRelease(thread, ListOwned);
    var s0 := Step(env, s, e0);
    s' := s.(releases := s.releases[thread := Deleting(node, claim, OwnedBy(s.cluster, claim))]);
    OneEvent(env, s, e0);
    SetTwice(s.releases, thread, Listing(node, claim), s'.releases[thread]);
    Then(env, s, [e0], s0, e1, s');
    events := [e0] + [e1];
  }

  lemma ReleaseEnds(env: Env, s: State, thread: nat) returns (events: seq<Event>, s': State)
    requires thread in s.releases && s.releases[thread].Deleting? && s.releases[thread].pending == map[]
    ensures Leads(env, s, events, s')
    ensures s' == s.(local := s.local - {Holder(s.releases[thread].node, s.releases[thread].claim)}, releases := s.releases - {thread})
  {
    var e0, e1 := InRelease(thread, RemoveCdi), InRelease(thread, ForgetClaim);
    var s1 := Step(env, s, e0);
    s' := Step(env, s1, e1);
    OneEvent(env, s, e0);
    Then(env, s, [e0], s1, e1, s');
    events := [e0] + [e1];
    assert s1.releases - {thread} == s.releases - {thread};
  }

  // ---------------------------------------------------------------- a whole sweep

  /** The stale ones among these. */
  function StaleOf(c: Cluster, pending: map<string, Object>): set<string> {
    set name | name in pending && Stale(c, name)
  }

  ghost predicate Scans(s: State, thread: nat) {
    && thread in s.sweeps && s.sweeps[thread].Scanning?
    && forall name :: name in s.sweeps[thread].pending ==>
         name in s.cluster.objects && s.cluster.objects[name] == s.sweeps[thread].pending[name]
         && Parse(name, s.cluster.objects[name].raw).Some?
  }

  /** One listed object: its claim is looked up, and it is deleted if stale. */
  lemma SweepRound(env: Env, s: State, thread: nat, name: string) returns (events: seq<Event>, s': State)
    requires Scans(s, thread) && name in s.sweeps[thread].pending
    ensures Leads(env, s, events, s') && Scans(s', thread)
    ensures s' == s.(cluster := s'.cluster, sweeps := s.sweeps[thread := Scanning(s.sweeps[thread].pending - {name})])
    ensures s'.cluster == s.cluster.(objects := if Stale(s.cluster, name) then s.cluster.objects - {name} else s.cluster.objects)
  {
    var pending := s.sweeps[thread].pending;
    var e0, e1 := InSweep(thread, GetClaim(name)), InSweep(thread, DeleteStale(true));
    var s1 := Step(env, s, e0);
    OneEvent(env, s, e0);
    if Stale(s.cluster, name) {
      assert s1.sweeps[thread] == Judged(pending - {name}, name, pending[name].uid);
      s' := SweepRemove(s1, thread, true);
      Then(env, s, [e0], s1, e1, s');
      events := [e0] + [e1];
      assert s'.sweeps == s.sweeps[thread := Scanning(pending - {name})];
    } else {
      events, s' := [e0], s1;
    }
  }

  /** Everything listed has been handled. */
  ghost predicate Scanned(s: State, s': State, thread: nat)
    requires Scans(s, thread)
  {
    && s' == s.(cluster := s'.cluster, sweeps := s.sweeps[thread := Scanning(map[])])
    && s'.cluster.objects == s.cluster.objects - StaleOf(s.cluster, s.sweeps[thread].pending)
  }

  ghost predicate ScanRuns(env: Env, s: State, thread: nat, events: seq<Event>, s': State) {
    Scans(s, thread) && Leads(env, s, events, s') && Scanned(s, s', thread)
  }

  lemma {:induction false} ScanLeads(env: Env, s: State, thread: nat, size: nat) returns (events: seq<Event>, s': State)
    requires Scans(s, thread) && |s.sweeps[thread].pending| == size
    ensures ScanRuns(env, s, thread, events, s')
    decreases size
  {
    if size == 0 {
      events, s' := [], s;
      assert s.sweeps[thread := Scanning(map[])] == s.sweeps;
    } else {
      assert s.sweeps[thread].pending != map[];
      var name :| name in s.sweeps[thread].pending;
      var round, s1 := SweepRound(env, s, thread, name);
      SmallerMap(s.sweeps[thread].pending, name);
      var rest;
      rest, s' := ScanLeads(env, s1, thread, size - 1);
      events := round + rest;
      ScanStep(env, s, thread, name, round, s1, rest, s');
    }
  }

  lemma ScanStep(env: Env, s: State, thread: nat, name: string, round: seq<Event>, s1: State, rest: seq<Event>, s': State)
    requires Scans(s, thread) && name in s.sweeps[thread].pending && Leads(env, s, round, s1) && ScanRuns(env, s1, thread, rest, s')
    requires s1 == s.(cluster := s1.cluster, sweeps := s.sweeps[thread := Scanning(s.sweeps[thread].pending - {name})])
    requires s1.cluster == s.cluster.(objects := if Stale(s.cluster, name) then s.cluster.objects - {name} else s.cluster.objects)
    ensures ScanRuns(env, s, thread, round + rest, s')
  {
    LeadsOn(env, s, round, s1, rest, s');
    ScannedOn(s, s1, s', thread, name);
  }

  lemma ScannedOn(s: State, s1: State, s': State, thread: nat, name: string)
    requires Scans(s, thread) && Scans(s1, thread) && name in s.sweeps[thread].pending && Scanned(s1, s', thread)
    requires s1 == s.(cluster := s1.cluster, sweeps := s.sweeps[thread := Scanning(s.sweeps[thread].pending - {name})])
    requires s1.cluster == s.cluster.(objects := if Stale(s.cluster, name) then s.cluster.objects - {name} else s.cluster.objects)
    ensures Scanned(s, s', thread)
  {
    StaleOneByOne(s.cluster, s1.cluster, s.sweeps[thread].pending, name);
    SetTwice(s.sweeps, thread, s1.sweeps[thread], Scanning(map[]));
  }

  lemma StaleOneByOne(c: Cluster, c': Cluster, pending: map<string, Object>, name: string)
    requires name in pending && (forall n :: n in pending ==> n in c.objects)
    requires c' == c.(objects := if Stale(c, name) then c.objects - {name} else c.objects)
    ensures c.objects - StaleOf(c, pending) == c'.objects - StaleOf(c', pending - {name})
  {
  }

  /** A reconcile in which no call fails is a run of the protocol, and leaves the objects that Reconcile leaves. */
  lemma SweepIsARun(env: Env, s: State, thread: nat) returns (events: seq<Event>, s': State)
    requires thread !in s.sweeps
    ensures Leads(env, s, events, s') && s'.cluster.objects == Reconcile.Kept(s.cluster)
    ensures s'.sweeps == s.sweeps && s'.local == s.local && s'.prepares == s.prepares && s'.releases == s.releases
  {
    var e0, e1 := InSweep(thread, ListAll), InSweep(thread, Stop);
    var s0 := Step(env, s, e0);
    OneEvent(env, s, e0);
    var scan, s1 := ScanLeads(env, s0, thread, |s0.sweeps[thread].pending|);
    LeadsOn(env, s, [e0], s0, scan, s1);
    s' := s1.(sweeps := s1.sweeps - {thread});
    Then(env, s, [e0] + scan, s1, e1, s');
    events := [e0] + scan + [e1];
    SetAndDropped(s.sweeps, thread, s0.sweeps[thread], Scanning(map[]));
    StaleTakenAway(s.cluster);
  }

  lemma SetAndDropped<T, U>(m: map<T, U>, k: T, u: U, v: U)
    requires k !in m
    ensures m[k := u][k := v] - {k} == m
  {
  }

  lemma StaleTakenAway(c: Cluster)
    ensures c.objects - StaleOf(c, Sweepable(c)) == Reconcile.Kept(c)
  {
  }
}
