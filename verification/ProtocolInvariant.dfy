/** The inductive invariant of the allocation protocol: every step of every party keeps it. */
module ProtocolInvariant {
  import opened Text
  import opened Ipv4
  import opened Pools
  import opened Allocations
  import opened Protocol

  // ---------------------------------------------------------------- the invariant

  /** Stored objects are exactly as they were created, every UID handed out is spent, and what was released is gone. */
  ghost predicate ObjectsRecorded(c: Cluster) {
    && (forall n :: n in c.objects ==>
          c.objects[n].uid in c.history && c.history[c.objects[n].uid] == Made(n, c.objects[n].raw))
    && (forall u :: u in c.history ==> u < c.nextUid)
    && (forall u :: u in c.released ==> u in c.history && !DeleteHits(c, c.history[u].name, u))
  }

  /** A well-formed allocation names an issued claim by its own key, and bears the name of its pool and address. */
  ghost predicate WellNamed(env: Env, c: Cluster, m: Made) {
    m.Parsed().Some? ==>
      var a := m.Parsed().value;
      && a.claim.uid in c.issued && c.issued[a.claim.uid] == ClaimKey(a.claim.namespace, a.claim.name)
      && m.name == env.nameOf(a.pool, a.address)
  }

  ghost predicate ClaimsConsistent(c: Cluster) {
    forall k :: k in c.live ==> c.live[k] in c.issued && c.issued[c.live[k]] == k
  }

  /** A well-formed object is still there, or its own claim released it, or its claim is gone. */
  ghost predicate KeptOrGone(c: Cluster, u: nat)
    requires u in c.history
  {
    var m := c.history[u];
    m.Parsed().Some? ==>
      DeleteHits(c, m.name, u) || u in c.released || !Alive(c, m.Parsed().value.claim.uid)
  }

  ghost predicate SoleOwner(c: Cluster) {
    forall claim, m, n :: Owns(c, claim, m) && Owns(c, claim, n) ==> m == n
  }

  ghost predicate ClusterInv(env: Env, c: Cluster) {
    && ObjectsRecorded(c)
    && (forall u :: u in c.history ==> WellNamed(env, c, c.history[u]))
    && ClaimsConsistent(c)
    && (forall u :: u in c.history ==> KeptOrGone(c, u))
    && SoleOwner(c)
    && PoolsWellFormed(c.pools)
  }

  /** The object with this UID was created for this claim, pool and address. */
  ghost predicate MadeFor(c: Cluster, u: nat, claim: string, pool: string, address: string) {
    && u in c.history && c.history[u].Parsed().Some?
    && var a := c.history[u].Parsed().value;
       a.claim.uid == claim && a.pool == pool && a.address == address
  }

  ghost predicate OwnsNothing(c: Cluster, claim: string) {
    forall name :: !Owns(c, claim, name)
  }

  /** A prepare runs on its claim's node; once it looks for an address, the claim has none. */
  ghost predicate PrepareInv(env: Env, c: Cluster, node: string, t: Prepare) {
    && env.home(t.req.claim) == node
    && t.req.claim in c.issued && c.issued[t.req.claim] == t.req.key && t.req.claim != ""
    && !Blank(t.pool.name)
    && (t.Creating? || t.Getting? ==> t.rest != [] && OwnsNothing(c, t.req.claim))
    && (t.Saving? ==> MadeFor(c, t.backing, t.req.claim, t.pool.name, t.address))
  }

  ghost predicate LocalInv(env: Env, c: Cluster, h: Holder, entry: Entry) {
    env.home(h.claim) == h.node && MadeFor(c, entry.backing, h.claim, entry.pool, entry.address)
  }

  ghost predicate ReleaseInv(c: Cluster, t: Release) {
    t.Deleting? ==> forall n :: n in t.pending ==>
      t.pending[n] in c.history
      && c.history[t.pending[n]].name == n
      && c.history[t.pending[n]].Parsed().Some?
      && c.history[t.pending[n]].Parsed().value.claim.uid == t.claim
  }

  ghost predicate Listed(c: Cluster, name: string, stored: Object) {
    stored.uid in c.history && c.history[stored.uid] == Made(name, stored.raw) && Parse(name, stored.raw).Some?
  }

  /** Whatever a controller has judged stale belongs to a claim that is gone. */
  ghost predicate SweepInv(c: Cluster, t: Sweep) {
    && (forall n :: n in t.pending ==> Listed(c, n, t.pending[n]))
    && (t.Judged? ==>
          && t.uid in c.history && c.history[t.uid].name == t.name && c.history[t.uid].Parsed().Some?
          && !Alive(c, c.history[t.uid].Parsed().value.claim.uid))
  }

  ghost predicate Inv(env: Env, s: State) {
    && ClusterInv(env, s.cluster)
    && "" !in s.cluster.issued
    && (forall n :: n in s.prepares ==> PrepareInv(env, s.cluster, n, s.prepares[n]))
    && (forall h :: h in s.local ==> LocalInv(env, s.cluster, h, s.local[h]))
    && (forall t :: t in s.releases ==> ReleaseInv(s.cluster, s.releases[t]))
    && (forall t :: t in s.sweeps ==> SweepInv(s.cluster, s.sweeps[t]))
  }

  // ---------------------------------------------------------------- how the cluster may change

  /** History only grows, and a claim that is gone stays gone. */
  ghost predicate Extends(c: Cluster, d: Cluster) {
    && (forall u :: u in c.history ==> u in d.history && d.history[u] == c.history[u])
    && (forall k :: k in c.issued ==> k in d.issued && d.issued[k] == c.issued[k])
    && (forall k :: k in c.issued && !Alive(c, k) ==> !Alive(d, k))
    && c.released <= d.released
  }

  lemma CreateOwns(c: Cluster, name: string, raw: RawSpec)
    requires name !in c.objects
    ensures var d := Create(c, name, raw);
            && (forall n :: n in c.objects ==> d.objects[n] == c.objects[n])
            && (forall k, n :: n != name ==> (Owns(d, k, n) <==> Owns(c, k, n)))
    ensures forall k :: OwnsNothing(c, k) && (Parse(name, raw).Some? ==> Parse(name, raw).value.claim.uid != k)
                        ==> OwnsNothing(Create(c, name, raw), k)
  {
  }

  lemma CreateKeeps(env: Env, c: Cluster, name: string, raw: RawSpec)
    requires ClusterInv(env, c) && name !in c.objects
    requires WellNamed(env, c, Made(name, raw))
    requires Parse(name, raw).Some? ==> OwnsNothing(c, Parse(name, raw).value.claim.uid)
    ensures ClusterInv(env, Create(c, name, raw)) && Extends(c, Create(c, name, raw))
    ensures forall k :: OwnsNothing(c, k) && (Parse(name, raw).Some? ==> Parse(name, raw).value.claim.uid != k)
                        ==> OwnsNothing(Create(c, name, raw), k)
  {
    var d := Create(c, name, raw);
    CreateOwns(c, name, raw);
    forall u | u in d.history
      ensures KeptOrGone(d, u) && WellNamed(env, d, d.history[u])
    {
      CreateKeepsHistory(env, c, name, raw, u);
    }
    CreateKeepsRecords(c, name, raw);
    assert SoleOwner(d);
  }

  lemma CreateKeepsRecords(c: Cluster, name: string, raw: RawSpec)
    requires ObjectsRecorded(c) && name !in c.objects
    ensures ObjectsRecorded(Create(c, name, raw)) && Extends(c, Create(c, name, raw))
  {
  }

  lemma CreateKeepsHistory(env: Env, c: Cluster, name: string, raw: RawSpec, u: nat)
    requires ClusterInv(env, c) && name !in c.objects && WellNamed(env, c, Made(name, raw))
    requires u in Create(c, name, raw).history
    ensures var d := Create(c, name, raw); KeptOrGone(d, u) && WellNamed(env, d, d.history[u])
  {
    var d := Create(c, name, raw);
    if u != c.nextUid {
      assert KeptOrGone(c, u) && WellNamed(env, c, c.history[u]);
      assert DeleteHits(c, c.history[u].name, u) ==> DeleteHits(d, d.history[u].name, u);
    }
  }

  lemma DeleteKeeps(env: Env, c: Cluster, name: string, uid: nat, release: bool)
    requires ClusterInv(env, c)
    requires DeleteHits(c, name, uid) && !release && Parse(name, c.objects[name].raw).Some?
             ==> !Alive(c, Parse(name, c.objects[name].raw).value.claim.uid)
    ensures ClusterInv(env, Delete(c, name, uid, release)) && Extends(c, Delete(c, name, uid, release))
    ensures forall k :: OwnsNothing(c, k) ==> OwnsNothing(Delete(c, name, uid, release), k)
  {
    var d := Delete(c, name, uid, release);
    if DeleteHits(c, name, uid) {
      assert forall k, n :: Owns(d, k, n) ==> Owns(c, k, n);
      forall u | u in d.history
        ensures KeptOrGone(d, u) && WellNamed(env, d, d.history[u])
      {
        assert KeptOrGone(c, u) && WellNamed(env, c, c.history[u]);
      }
    }
  }

  lemma ClaimsKeep(env: Env, c: Cluster, d: Cluster)
    requires ClusterInv(env, c) && ClaimsConsistent(d) && PoolsWellFormed(d.pools)
    requires d.objects == c.objects && d.history == c.history && d.nextUid == c.nextUid && d.released == c.released
    requires forall k :: k in c.issued ==> k in d.issued && d.issued[k] == c.issued[k]
    requires forall k :: k in c.issued && !Alive(c, k) ==> !Alive(d, k)
    ensures ClusterInv(env, d) && Extends(c, d)
    ensures forall k :: OwnsNothing(c, k) ==> OwnsNothing(d, k)
  {
    assert forall k, n :: Owns(d, k, n) <==> Owns(c, k, n);
    forall u | u in d.history
      ensures KeptOrGone(d, u) && WellNamed(env, d, d.history[u])
    {
      assert KeptOrGone(c, u) && WellNamed(env, c, c.history[u]);
    }
  }

  // ---------------------------------------------------------------- the other parties are undisturbed

  lemma ThreadsKeep(env: Env, c: Cluster, d: Cluster, s: State)
    requires Extends(c, d)
    requires forall h :: h in s.local ==> LocalInv(env, c, h, s.local[h])
    requires forall t :: t in s.releases ==> ReleaseInv(c, s.releases[t])
    requires forall t :: t in s.sweeps ==> SweepInv(c, s.sweeps[t])
    requires forall u :: u in c.history ==> WellNamed(env, c, c.history[u])
    ensures forall h :: h in s.local ==> LocalInv(env, d, h, s.local[h])
    ensures forall t :: t in s.releases ==> ReleaseInv(d, s.releases[t])
    ensures forall t :: t in s.sweeps ==> SweepInv(d, s.sweeps[t])
  {
  }

  /** A prepare in progress survives any change that gives its claim no object behind its back. */
  lemma PrepareKeeps(env: Env, c: Cluster, d: Cluster, node: string, t: Prepare)
    requires PrepareInv(env, c, node, t) && Extends(c, d)
    requires OwnsNothing(c, t.req.claim) ==> OwnsNothing(d, t.req.claim)
    ensures PrepareInv(env, d, node, t)
  {
  }

  /** A step that changes only the cluster, and gives no claim that is being prepared a new object. */
  lemma ClusterStepKeeps(env: Env, s: State, d: Cluster)
    requires Inv(env, s) && ClusterInv(env, d) && Extends(s.cluster, d) && "" !in d.issued
    requires forall n :: n in s.prepares && OwnsNothing(s.cluster, s.prepares[n].req.claim)
                         ==> OwnsNothing(d, s.prepares[n].req.claim)
    ensures Inv(env, s.(cluster := d))
  {
    ThreadsKeep(env, s.cluster, d, s);
    forall n | n in s.prepares
      ensures PrepareInv(env, d, n, s.prepares[n])
    {
      PrepareKeeps(env, s.cluster, d, n, s.prepares[n]);
    }
  }

  // ---------------------------------------------------------------- one party's own bookkeeping

  lemma DropPrepare(env: Env, s: State, node: string)
    requires Inv(env, s)
    ensures Inv(env, s.(prepares := s.prepares - {node}))
  {
  }

  lemma SetPrepare(env: Env, s: State, node: string, t: Prepare)
    requires Inv(env, s) && PrepareInv(env, s.cluster, node, t)
    ensures Inv(env, s.(prepares := s.prepares[node := t]))
  {
  }

  lemma SetLocal(env: Env, s: State, h: Holder, entry: Entry)
    requires Inv(env, s) && LocalInv(env, s.cluster, h, entry)
    ensures Inv(env, s.(local := s.local[h := entry]))
  {
  }

  lemma DropRelease(env: Env, s: State, thread: nat)
    requires Inv(env, s)
    ensures Inv(env, s.(releases := s.releases - {thread}))
  {
  }

  lemma SetRelease(env: Env, s: State, thread: nat, t: Release)
    requires Inv(env, s) && ReleaseInv(s.cluster, t)
    ensures Inv(env, s.(releases := s.releases[thread := t]))
  {
  }

  lemma DropSweep(env: Env, s: State, thread: nat)
    requires Inv(env, s)
    ensures Inv(env, s.(sweeps := s.sweeps - {thread}))
  {
  }

  lemma SetSweep(env: Env, s: State, thread: nat, t: Sweep)
    requires Inv(env, s) && SweepInv(s.cluster, t)
    ensures Inv(env, s.(sweeps := s.sweeps[thread := t]))
  {
  }

  // ---------------------------------------------------------------- one lemma per kind of step

  lemma WorldClusterKeeps(env: Env, c: Cluster, o: Outside)
    requires ClusterInv(env, c) && WorldEnabled(c, o) && "" !in c.issued
    ensures ClusterInv(env, WorldStep(c, o)) && Extends(c, WorldStep(c, o)) && "" !in WorldStep(c, o).issued
    ensures forall k :: OwnsNothing(c, k) ==> OwnsNothing(WorldStep(c, o), k)
  {
    match o
    case JunkCreate(name, raw) => CreateKeeps(env, c, name, raw);
    case JunkDelete(name) => DeleteKeeps(env, c, name, c.objects[name].uid, false);
    case _ => ClaimsKeep(env, c, WorldStep(c, o));
  }

  lemma WorldKeeps(env: Env, s: State, o: Outside)
    requires Inv(env, s) && WorldEnabled(s.cluster, o)
    ensures Inv(env, s.(cluster := WorldStep(s.cluster, o))) && Extends(s.cluster, WorldStep(s.cluster, o))
  {
    WorldClusterKeeps(env, s.cluster, o);
    ClusterStepKeeps(env, s, WorldStep(s.cluster, o));
  }

  lemma FindHitKeeps(env: Env, s: State, node: string, name: string)
    requires Inv(env, s) && PrepareEnabled(env, s, node, FindClaim(Some(name)))
    ensures Inv(env, Find(s, node, Some(name)))
  {
    var t := s.prepares[node];
    assert PrepareInv(env, s.cluster, node, t);
    var stored := s.cluster.objects[name];
    assert s.cluster.history[stored.uid] == Made(name, stored.raw);
    var found := Parse(name, stored.raw).value;
    DropPrepare(env, s, node);
    if found.pool == t.pool.name {
      assert MadeFor(s.cluster, stored.uid, t.req.claim, t.pool.name, found.address);
      SetPrepare(env, s, node, Saving(t.req, t.pool, found.address, stored.uid));
    }
  }

  lemma FindMissShape(s: State, node: string) returns (next: Prepare)
    requires node in s.prepares && s.prepares[node].Finding? && s.prepares[node].pool.subnet.Valid()
    ensures next.Creating? && next.req == s.prepares[node].req && next.pool == s.prepares[node].pool
    ensures Find(s, node, None) == s.(prepares := s.prepares - {node})
            || (next.rest != [] && Find(s, node, None) == s.(prepares := s.prepares[node := next]))
  {
    var t := s.prepares[node];
    if t.req.address.NoAddress? {
      next := Creating(t.req, t.pool, Dynamic, Candidates(t.pool));
    } else {
      var fixed := StaticAddress(t.pool, t.req.address);
      next := Creating(t.req, t.pool, Static, if fixed.Some? then [fixed.value] else []);
    }
  }

  lemma FindMissKeeps(env: Env, s: State, node: string)
    requires Inv(env, s) && PrepareEnabled(env, s, node, FindClaim(None))
    ensures Inv(env, Find(s, node, None))
  {
    assert PrepareInv(env, s.cluster, node, s.prepares[node]);
    var next := FindMissShape(s, node);
    DropPrepare(env, s, node);
    if next.rest != [] {
      assert PrepareInv(env, s.cluster, node, next);
      SetPrepare(env, s, node, next);
    }
  }

  lemma DriverSpecParses(env: Env, c: Cluster, node: string, t: Prepare)
    requires PrepareInv(env, c, node, t) && t.Creating?
    ensures WellNamed(env, c, Made(NameFor(env, t), SpecFor(node, t)))
    ensures var p := Parse(NameFor(env, t), SpecFor(node, t));
            p.Some? && p.value.claim.uid == t.req.claim && p.value.pool == t.pool.name
            && p.value.address == CidrText(t.rest[0], t.pool.subnet.ones) && p.value.allocationType == t.kind.Text()
  {
    var address := CidrText(t.rest[0], t.pool.subnet.ones);
    assert !IsSpace(address[0]);
  }

  lemma CreateTakenKeeps(env: Env, s: State, node: string, answered: bool)
    requires Inv(env, s) && PrepareEnabled(env, s, node, CreateNext(answered))
    requires NameFor(env, s.prepares[node]) in s.cluster.objects
    ensures Inv(env, TryCreate(env, s, node, answered))
  {
    var t := s.prepares[node];
    assert PrepareInv(env, s.cluster, node, t);
    DropPrepare(env, s, node);
    SetPrepare(env, s, node, Getting(t.req, t.pool, t.kind, t.rest));
  }

  /** The other nodes prepare other claims, so a Create by this node leaves them with no object still. */
  lemma CreateSparesOthers(env: Env, s: State, node: string)
    requires Inv(env, s) && node in s.prepares && s.prepares[node].Creating?
    requires NameFor(env, s.prepares[node]) !in s.cluster.objects
    ensures var t := s.prepares[node];
            var d := Create(s.cluster, NameFor(env, t), SpecFor(node, t));
            ClusterInv(env, d) && Extends(s.cluster, d) && Inv(env, s.(cluster := d, prepares := s.prepares - {node}))
  {
    var t := s.prepares[node];
    var name := NameFor(env, t);
    assert PrepareInv(env, s.cluster, node, t);
    DriverSpecParses(env, s.cluster, node, t);
    CreateKeeps(env, s.cluster, name, SpecFor(node, t));
    DropPrepare(env, s, node);
    var s0 := s.(prepares := s.prepares - {node});
    var d := Create(s.cluster, name, SpecFor(node, t));
    forall n | n in s0.prepares && OwnsNothing(s.cluster, s0.prepares[n].req.claim)
      ensures OwnsNothing(d, s0.prepares[n].req.claim)
    {
      assert PrepareInv(env, s.cluster, n, s.prepares[n]);
      assert s.prepares[n].req.claim != t.req.claim;
    }
    ClusterStepKeeps(env, s0, d);
  }

  lemma CreatedIsMadeFor(env: Env, c: Cluster, node: string, t: Prepare)
    requires PrepareInv(env, c, node, t) && t.Creating? && NameFor(env, t) !in c.objects
    ensures var d := Create(c, NameFor(env, t), SpecFor(node, t));
            PrepareInv(env, d, node, Saving(t.req, t.pool, CidrText(t.rest[0], t.pool.subnet.ones), c.nextUid))
  {
    DriverSpecParses(env, c, node, t);
  }

  lemma CreateShape(env: Env, s: State, node: string, answered: bool)
    requires node in s.prepares && s.prepares[node].Creating? && s.prepares[node].rest != []
    requires NameFor(env, s.prepares[node]) !in s.cluster.objects
    ensures var t := s.prepares[node];
            var s0 := s.(cluster := Create(s.cluster, NameFor(env, t), SpecFor(node, t)), prepares := s.prepares - {node});
            var next := Saving(t.req, t.pool, CidrText(t.rest[0], t.pool.subnet.ones), s.cluster.nextUid);
            TryCreate(env, s, node, answered) == if answered then s0.(prepares := s0.prepares[node := next]) else s0
  {
  }

  lemma CreateFreeKeeps(env: Env, s: State, node: string, answered: bool)
    requires Inv(env, s) && PrepareEnabled(env, s, node, CreateNext(answered))
    requires NameFor(env, s.prepares[node]) !in s.cluster.objects
    ensures Inv(env, TryCreate(env, s, node, answered))
    ensures Extends(s.cluster, TryCreate(env, s, node, answered).cluster)
  {
    var t := s.prepares[node];
    CreateSparesOthers(env, s, node);
    CreateShape(env, s, node, answered);
    if answered {
      var s0 := s.(cluster := Create(s.cluster, NameFor(env, t), SpecFor(node, t)), prepares := s.prepares - {node});
      assert PrepareInv(env, s.cluster, node, t);
      CreatedIsMadeFor(env, s.cluster, node, t);
      SetPrepare(env, s0, node, Saving(t.req, t.pool, CidrText(t.rest[0], t.pool.subnet.ones), s.cluster.nextUid));
    }
  }

  /** With nothing of its own in the cluster, a prepare whose Create was refused moves on or gives up. */
  lemma GetShape(env: Env, s: State, node: string) returns (next: Prepare)
    requires node in s.prepares && s.prepares[node].Getting? && s.prepares[node].rest != []
    requires !Owns(s.cluster, s.prepares[node].req.claim, NameFor(env, s.prepares[node]))
    ensures next == Creating(s.prepares[node].req, s.prepares[node].pool, s.prepares[node].kind, s.prepares[node].rest[1..])
    ensures TryGet(env, s, node) == s.(prepares := s.prepares - {node})
            || (next.rest != [] && TryGet(env, s, node) == s.(prepares := s.prepares[node := next]))
  {
    var t := s.prepares[node];
    next := Creating(t.req, t.pool, t.kind, t.rest[1..]);
  }

  lemma GetStepKeeps(env: Env, s: State, node: string)
    requires Inv(env, s) && PrepareEnabled(env, s, node, GetTaken)
    ensures Inv(env, TryGet(env, s, node))
  {
    assert PrepareInv(env, s.cluster, node, s.prepares[node]);
    var next := GetShape(env, s, node);
    DropPrepare(env, s, node);
    if next.rest != [] {
      SetPrepare(env, s, node, next);
    }
  }

  lemma SaveKeeps(env: Env, s: State, node: string)
    requires Inv(env, s) && PrepareEnabled(env, s, node, SaveLocal)
    ensures Inv(env, Save(s, node))
  {
    var t := s.prepares[node];
    var holder := Holder(node, t.req.claim);
    var entry := Entry(t.pool.name, t.address, t.backing);
    assert PrepareInv(env, s.cluster, node, t);
    DropPrepare(env, s, node);
    var s0 := s.(prepares := s.prepares - {node});
    if SaveSucceeds(s, node) && holder !in s.local {
      SetLocal(env, s0, holder, entry);
      assert Save(s, node) == s0.(local := s0.local[holder := entry]);
    } else {
      assert Save(s, node) == s0;
    }
  }

  lemma PrepareStepKeeps(env: Env, s: State, node: string, p: PrepareStep)
    requires Inv(env, s) && PrepareEnabled(env, s, node, p)
    ensures Inv(env, PrepareNext(env, s, node, p))
  {
    match p
    case Begin(req) => SetPrepare(env, s, node, Finding(req, s.cluster.pools[req.pool]));
    case FindClaim(hit) =>
      if hit.Some? { FindHitKeeps(env, s, node, hit.value); } else { FindMissKeeps(env, s, node); }
    case CreateNext(answered) =>
      if NameFor(env, s.prepares[node]) in s.cluster.objects {
        CreateTakenKeeps(env, s, node, answered);
      } else {
        CreateFreeKeeps(env, s, node, answered);
      }
    case GetTaken => GetStepKeeps(env, s, node);
    case SaveLocal => SaveKeeps(env, s, node);
    case GiveUp => DropPrepare(env, s, node);
  }

  lemma ReleaseDeleteKeeps(env: Env, s: State, thread: nat, name: string, answered: bool)
    requires Inv(env, s) && ReleaseEnabled(s, thread, DeleteOwned(name, answered))
    ensures Inv(env, ReleaseOne(s, thread, name, answered)) && Extends(s.cluster, ReleaseOne(s, thread, name, answered).cluster)
  {
    var t := s.releases[thread];
    DeleteKeeps(env, s.cluster, name, t.pending[name], true);
    var d := Delete(s.cluster, name, t.pending[name], true);
    ClusterStepKeeps(env, s, d);
    var s1 := s.(cluster := d);
    assert ReleaseInv(s1.cluster, t);
    DropRelease(env, s1, thread);
    SetRelease(env, s1, thread, t.(pending := t.pending - {name}));
  }

  lemma ReleaseListKeeps(env: Env, s: State, thread: nat)
    requires Inv(env, s) && ReleaseEnabled(s, thread, ListOwned)
    ensures Inv(env, ReleaseNext(s, thread, ListOwned))
  {
  }

  lemma ReleaseStepKeeps(env: Env, s: State, thread: nat, r: ReleaseStep)
    requires Inv(env, s) && ReleaseEnabled(s, thread, r)
    ensures Inv(env, ReleaseNext(s, thread, r))
  {
    match r
    case BeginRelease(node, claim) => SetRelease(env, s, thread, Listing(node, claim));
    case ListOwned => ReleaseListKeeps(env, s, thread);
    case DeleteOwned(name, answered) => ReleaseDeleteKeeps(env, s, thread, name, answered);
    case RemoveCdi => SetRelease(env, s, thread, Forgetting(s.releases[thread].node, s.releases[thread].claim));
    case ForgetClaim => DropRelease(env, s, thread);
    case Abort => DropRelease(env, s, thread);
  }

  /** A claim found missing or replaced under the recorded name is gone for good. */
  lemma StaleMeansGone(env: Env, c: Cluster, name: string, stored: Object)
    requires ClusterInv(env, c) && Listed(c, name, stored)
    ensures var claim := Parse(name, stored.raw).value.claim;
            var key := ClaimKey(claim.namespace, claim.name);
            (key !in c.live || c.live[key] != claim.uid) <==> !Alive(c, claim.uid)
  {
  }

  lemma SweepListKeeps(env: Env, s: State, thread: nat)
    requires Inv(env, s) && SweepEnabled(s, thread, ListAll)
    ensures Inv(env, SweepNext(s, thread, ListAll))
  {
    var listed := Sweepable(s.cluster);
    forall n | n in listed
      ensures Listed(s.cluster, n, listed[n])
    {
      assert s.cluster.history[s.cluster.objects[n].uid] == Made(n, s.cluster.objects[n].raw);
    }
    SetSweep(env, s, thread, Scanning(listed));
  }

  lemma SweepGetKeeps(env: Env, s: State, thread: nat, name: string)
    requires Inv(env, s) && SweepEnabled(s, thread, GetClaim(name))
    ensures Inv(env, SweepOne(s, thread, name))
  {
    var w := s.sweeps[thread];
    assert SweepInv(s.cluster, w);
    assert Listed(s.cluster, name, w.pending[name]);
    StaleMeansGone(env, s.cluster, name, w.pending[name]);
    var next := SweepOne(s, thread, name).sweeps[thread];
    assert forall n :: n in next.pending ==> Listed(s.cluster, n, w.pending[n]);
    SetSweep(env, s, thread, next);
  }

  lemma SweepDeleteKeeps(env: Env, s: State, thread: nat, answered: bool)
    requires Inv(env, s) && SweepEnabled(s, thread, DeleteStale(answered))
    ensures Inv(env, SweepRemove(s, thread, answered)) && Extends(s.cluster, SweepRemove(s, thread, answered).cluster)
  {
    var w := s.sweeps[thread];
    assert SweepInv(s.cluster, w);
    DeleteKeeps(env, s.cluster, w.name, w.uid, false);
    var d := Delete(s.cluster, w.name, w.uid, false);
    ClusterStepKeeps(env, s, d);
    var s1 := s.(cluster := d);
    assert SweepInv(s1.cluster, w);
    DropSweep(env, s1, thread);
    SetSweep(env, s1, thread, Scanning(w.pending));
  }

  lemma SweepStepKeeps(env: Env, s: State, thread: nat, w: SweepStep)
    requires Inv(env, s) && SweepEnabled(s, thread, w)
    ensures Inv(env, SweepNext(s, thread, w))
  {
    match w
    case ListAll => SweepListKeeps(env, s, thread);
    case GetClaim(name) => SweepGetKeeps(env, s, thread, name);
    case DeleteStale(answered) => SweepDeleteKeeps(env, s, thread, answered);
    case Stop => DropSweep(env, s, thread);
  }

  /** Every step of every party keeps the invariant. */
  lemma StepKeeps(env: Env, s: State, e: Event)
    requires Inv(env, s) && Enabled(env, s, e)
    ensures Inv(env, Step(env, s, e))
  {
    match e
    case World(o) => WorldKeeps(env, s, o);
    case OnNode(node, p) => PrepareStepKeeps(env, s, node, p);
    case InRelease(thread, r) => ReleaseStepKeeps(env, s, thread, r);
    case InSweep(thread, w) => SweepStepKeeps(env, s, thread, w);
  }

  lemma ExtendsItself(c: Cluster)
    ensures Extends(c, c)
  {
  }

  lemma PrepareLeavesCluster(env: Env, s: State, node: string, p: PrepareStep)
    requires PrepareEnabled(env, s, node, p)
    requires p.CreateNext? ==> NameFor(env, s.prepares[node]) in s.cluster.objects
    ensures PrepareNext(env, s, node, p).cluster == s.cluster
  {
    match p
    case FindClaim(hit) => FindLeavesCluster(s, node, hit);
    case CreateNext(_) =>
    case GetTaken => GetLeavesCluster(env, s, node);
    case SaveLocal => SaveLeavesCluster(s, node);
    case _ =>
  }

  lemma FindLeavesCluster(s: State, node: string, hit: Option<string>)
    requires node in s.prepares && s.prepares[node].Finding? && s.prepares[node].pool.subnet.Valid()
    requires hit.Some? ==> Owns(s.cluster, s.prepares[node].req.claim, hit.value)
    ensures Find(s, node, hit).cluster == s.cluster
  {
  }

  lemma GetLeavesCluster(env: Env, s: State, node: string)
    requires node in s.prepares && s.prepares[node].Getting? && s.prepares[node].rest != []
    ensures TryGet(env, s, node).cluster == s.cluster
  {
  }

  lemma SaveLeavesCluster(s: State, node: string)
    requires node in s.prepares && s.prepares[node].Saving?
    ensures Save(s, node).cluster == s.cluster
  {
  }

  lemma PrepareExtends(env: Env, s: State, node: string, p: PrepareStep)
    requires Inv(env, s) && PrepareEnabled(env, s, node, p)
    ensures Extends(s.cluster, PrepareNext(env, s, node, p).cluster)
  {
    if p.CreateNext? && NameFor(env, s.prepares[node]) !in s.cluster.objects {
      CreateFreeKeeps(env, s, node, p.answered);
    } else {
      PrepareLeavesCluster(env, s, node, p);
      ExtendsItself(s.cluster);
    }
  }

  /** No step forgets what was made or issued, and none brings a claim back. */
  lemma StepExtends(env: Env, s: State, e: Event)
    requires Inv(env, s) && Enabled(env, s, e)
    ensures Extends(s.cluster, Step(env, s, e).cluster)
  {
    ExtendsItself(s.cluster);
    match e
    case World(o) => WorldKeeps(env, s, o);
    case OnNode(node, p) => PrepareExtends(env, s, node, p);
    case InRelease(thread, r) => ReleaseExtends(env, s, thread, r);
    case InSweep(thread, w) => SweepExtends(env, s, thread, w);
  }

  lemma ReleaseExtends(env: Env, s: State, thread: nat, r: ReleaseStep)
    requires Inv(env, s) && ReleaseEnabled(s, thread, r)
    ensures Extends(s.cluster, ReleaseNext(s, thread, r).cluster)
  {
    ExtendsItself(s.cluster);
    if r.DeleteOwned? {
      ReleaseDeleteKeeps(env, s, thread, r.name, r.answered);
    }
  }

  lemma SweepExtends(env: Env, s: State, thread: nat, w: SweepStep)
    requires Inv(env, s) && SweepEnabled(s, thread, w)
    ensures Extends(s.cluster, SweepNext(s, thread, w).cluster)
  {
    ExtendsItself(s.cluster);
    if w.DeleteStale? {
      SweepDeleteKeeps(env, s, thread, w.answered);
    }
  }

  /** The invariant holds in every state of every run. */
  lemma {:induction false} RunKeeps(env: Env, states: seq<State>, events: seq<Event>, i: nat)
    requires IsRun(env, states, events) && i < |states|
    ensures Inv(env, states[i])
    decreases i
  {
    if i > 0 {
      RunKeeps(env, states, events, i - 1);
      StepKeeps(env, states[i - 1], events[i - 1]);
    }
  }
}
