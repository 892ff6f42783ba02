/** The cluster-wide address allocation protocol, one API call per step.

    Any number of node plugins prepare and release claims, any number of
    controllers sweep stale allocations, and claims come and go in between.
    Between two steps of one party every other party may take any number of
    steps. A call may fail without effect, and a Create or Delete may take
    effect although its reply is lost. */
module Protocol {
  import opened Text
  import opened Ipv4
  import opened Pools
  import opened Allocations

  datatype ClaimKey = ClaimKey(namespace: string, name: string)

  /** An allocation object as stored: its UID and its immutable spec. */
  datatype Object = Object(uid: nat, raw: RawSpec)

  /** An object as it was created. */
  datatype Made = Made(name: string, raw: RawSpec) {
    function Parsed(): Option<Allocation> {
      Parse(name, raw)
    }
  }

  /** The API server, with the history of what it has issued. UIDs never come back. */
  datatype Cluster = Cluster(
    objects: map<string, Object>,
    nextUid: nat,
    history: map<nat, Made>,        // every object ever created, by UID
    released: set<nat>,             // the objects deleted by a release of their own claim
    issued: map<string, ClaimKey>,  // every claim UID ever issued
    live: map<ClaimKey, string>,    // the claims that exist now
    pools: map<string, Pool>)

  /** One applyIPAM call: the claim, its pod, and the pool and address its configuration asks for. */
  datatype Request = Request(claim: string, key: ClaimKey, pod: Ref, pool: string, address: RequestedText)

  datatype Kind = Dynamic | Static {
    function Text(): string {
      if Dynamic? then DYNAMIC else STATIC
    }
  }

  /** Where a prepare in progress is. A node without one holds no prepare lock. */
  datatype Prepare =
    | Finding(req: Request, pool: Pool)
    | Creating(req: Request, pool: Pool, kind: Kind, rest: seq<Addr>)
    | Getting(req: Request, pool: Pool, kind: Kind, rest: seq<Addr>)
    | Saving(req: Request, pool: Pool, address: string, backing: nat)

  /** Where a release in progress is. */
  datatype Release =
    | Listing(node: string, claim: string)
    | Deleting(node: string, claim: string, pending: map<string, nat>)
    | Forgetting(node: string, claim: string)

  /** Where a controller's reconcile is: the listed objects not yet handled, and the one judged stale. */
  datatype Sweep =
    | Scanning(pending: map<string, Object>)
    | Judged(pending: map<string, Object>, name: string, uid: nat)

  datatype Holder = Holder(node: string, claim: string)

  /** A local store entry, with the cluster object it was recorded for. */
  datatype Entry = Entry(pool: string, address: string, backing: nat)

  datatype State = State(
    cluster: Cluster,
    prepares: map<string, Prepare>,
    local: map<Holder, Entry>,
    releases: map<nat, Release>,
    sweeps: map<nat, Sweep>)

  /** What the run does not change: the naming function, about which nothing is
      assumed, and the node on which each claim is prepared. */
  datatype Env = Env(nameOf: (string, string) -> string, home: string -> string)

  /** What happens outside the driver: claims, pools, and objects that are not well-formed allocations. */
  datatype Outside =
    | ClaimCreate(key: ClaimKey, uid: string)
    | ClaimDelete(key: ClaimKey)
    | PoolsEdit(pools: map<string, Pool>)
    | JunkCreate(name: string, raw: RawSpec)
    | JunkDelete(name: string)

  datatype PrepareStep =
    | Begin(req: Request)
    | FindClaim(hit: Option<string>)
    | CreateNext(answered: bool)
    | GetTaken
    | SaveLocal
    | GiveUp

  datatype ReleaseStep =
    | BeginRelease(node: string, claim: string)
    | ListOwned
    | DeleteOwned(name: string, answered: bool)
    | RemoveCdi
    | ForgetClaim
    | Abort

  datatype SweepStep =
    | ListAll
    | GetClaim(name: string)
    | DeleteStale(answered: bool)
    | Stop

  datatype Event =
    | World(outside: Outside)
    | OnNode(node: string, prepare: PrepareStep)
    | InRelease(thread: nat, release: ReleaseStep)
    | InSweep(thread: nat, sweep: SweepStep)

  // ---------------------------------------------------------------- API server

  predicate Alive(c: Cluster, claim: string) {
    claim in c.issued && c.issued[claim] in c.live && c.live[c.issued[claim]] == claim
  }

  /** The object that the cluster holds under this name belongs to the claim. */
  predicate Owns(c: Cluster, claim: string, name: string) {
    name in c.objects
    && Parse(name, c.objects[name].raw).Some?
    && Parse(name, c.objects[name].raw).value.claim.uid == claim
  }

  /** An atomic Create under a free name. */
  function Create(c: Cluster, name: string, raw: RawSpec): Cluster
    requires name !in c.objects
  {
    c.(objects := c.objects[name := Object(c.nextUid, raw)],
       history := c.history[c.nextUid := Made(name, raw)],
       nextUid := c.nextUid + 1)
  }

  predicate DeleteHits(c: Cluster, name: string, uid: nat) {
    name in c.objects && c.objects[name].uid == uid
  }

  /** A Delete with a UID precondition: only that very object is removed. */
  function Delete(c: Cluster, name: string, uid: nat, release: bool): Cluster {
    if !DeleteHits(c, name, uid) then c
    else c.(objects := c.objects - {name}, released := if release then c.released + {uid} else c.released)
  }

  function SpecFor(node: string, t: Prepare): RawSpec
    requires t.Creating? && t.rest != []
  {
    NewSpec(Allocation("", t.pool.name, CidrText(t.rest[0], t.pool.subnet.ones), t.kind.Text(),
                       Ref(t.req.key.namespace, t.req.key.name, t.req.claim), t.req.pod, node))
  }

  function NameFor(env: Env, t: Prepare): string
    requires (t.Creating? || t.Getting?) && t.rest != []
  {
    env.nameOf(t.pool.name, CidrText(t.rest[0], t.pool.subnet.ones))
  }

  predicate PoolsWellFormed(pools: map<string, Pool>) {
    forall p :: p in pools ==> pools[p].name == p && !Blank(p)
  }

  // ---------------------------------------------------------------- steps

  /** Begin with the pool as reloaded; an unknown or invalid pool ends the call before any step. */
  predicate CanBegin(env: Env, s: State, node: string, req: Request) {
    && node !in s.prepares
    && req.claim in s.cluster.issued && s.cluster.issued[req.claim] == req.key
    && env.home(req.claim) == node
    && req.pool in s.cluster.pools && ValidPool(s.cluster.pools[req.pool])
  }

  /** FindForClaim: some listed allocation of the claim, or none when there is none. */
  ghost predicate CanFind(s: State, node: string, hit: Option<string>) {
    && node in s.prepares && s.prepares[node].Finding?
    && var claim := s.prepares[node].req.claim;
       if hit.Some? then Owns(s.cluster, claim, hit.value)
       else forall name :: !Owns(s.cluster, claim, name)
  }

  function CreatingOrDone(s: State, node: string, t: Prepare): State
    requires t.Creating?
  {
    s.(prepares := if t.rest == [] then s.prepares - {node} else s.prepares[node := t])
  }

  function Find(s: State, node: string, hit: Option<string>): State
    requires node in s.prepares && s.prepares[node].Finding?
    requires hit.Some? ==> Owns(s.cluster, s.prepares[node].req.claim, hit.value)
    requires s.prepares[node].pool.subnet.Valid()
  {
    var t := s.prepares[node];
    match hit
    case Some(name) =>
      var stored := s.cluster.objects[name];
      var found := Parse(name, stored.raw).value;
      if found.pool != t.pool.name then s.(prepares := s.prepares - {node})
      else s.(prepares := s.prepares[node := Saving(t.req, t.pool, found.address, stored.uid)])
    case None =>
      if t.req.address.NoAddress? then
        CreatingOrDone(s, node, Creating(t.req, t.pool, Dynamic, Candidates(t.pool)))
      else
        var fixed := StaticAddress(t.pool, t.req.address);
        if fixed.None? then s.(prepares := s.prepares - {node})
        else s.(prepares := s.prepares[node := Creating(t.req, t.pool, Static, [fixed.value])])
  }

  /** Reserve, first call. A Create whose reply is lost ends the prepare, whether or not it took effect. */
  function TryCreate(env: Env, s: State, node: string, answered: bool): State
    requires node in s.prepares && s.prepares[node].Creating? && s.prepares[node].rest != []
  {
    var t := s.prepares[node];
    var name := NameFor(env, t);
    if name in s.cluster.objects then
      s.(prepares := if answered then s.prepares[node := Getting(t.req, t.pool, t.kind, t.rest)]
                     else s.prepares - {node})
    else
      var saving := Saving(t.req, t.pool, CidrText(t.rest[0], t.pool.subnet.ones), s.cluster.nextUid);
      s.(cluster := Create(s.cluster, name, SpecFor(node, t)),
         prepares := if answered then s.prepares[node := saving] else s.prepares - {node})
  }

  /** Reserve, second call: the object in the way counts only if pool, address and claim all match. */
  function TryGet(env: Env, s: State, node: string): State
    requires node in s.prepares && s.prepares[node].Getting? && s.prepares[node].rest != []
  {
    var t := s.prepares[node];
    var name := NameFor(env, t);
    var address := CidrText(t.rest[0], t.pool.subnet.ones);
    if name !in s.cluster.objects then s.(prepares := s.prepares - {node})
    else
      var stored := s.cluster.objects[name];
      match Parse(name, stored.raw)
      case None => s.(prepares := s.prepares - {node})
      case Some(found) =>
        if found.claim.uid == t.req.claim && found.pool == t.pool.name && found.address == address then
          s.(prepares := s.prepares[node := Saving(t.req, t.pool, address, stored.uid)])
        else if t.kind.Static? then s.(prepares := s.prepares - {node})
        else CreatingOrDone(s, node, Creating(t.req, t.pool, t.kind, t.rest[1..]))
  }

  predicate SaveSucceeds(s: State, node: string) {
    && node in s.prepares && s.prepares[node].Saving?
    && var t := s.prepares[node];
       var holder := Holder(node, t.req.claim);
       holder in s.local ==> s.local[holder].pool == t.pool.name && s.local[holder].address == t.address
  }

  /** ReserveIP in the node's own store, the last step of applyIPAM. */
  function Save(s: State, node: string): State
    requires node in s.prepares && s.prepares[node].Saving?
  {
    var t := s.prepares[node];
    var holder := Holder(node, t.req.claim);
    if SaveSucceeds(s, node) && holder !in s.local then
      s.(local := s.local[holder := Entry(t.pool.name, t.address, t.backing)], prepares := s.prepares - {node})
    else
      s.(prepares := s.prepares - {node})
  }

  /** The allocations of a claim in the current listing. */
  function OwnedBy(c: Cluster, claim: string): map<string, nat> {
    map name | name in c.objects && Owns(c, claim, name) :: c.objects[name].uid
  }

  /** A Delete in a release: absence is fine, a different UID is a conflict that ends the attempt. */
  function ReleaseOne(s: State, thread: nat, name: string, answered: bool): State
    requires thread in s.releases && s.releases[thread].Deleting? && name in s.releases[thread].pending
  {
    var t := s.releases[thread];
    var uid := t.pending[name];
    var conflict := name in s.cluster.objects && s.cluster.objects[name].uid != uid;
    s.(cluster := Delete(s.cluster, name, uid, true),
       releases := if conflict || !answered then s.releases - {thread}
                   else s.releases[thread := t.(pending := t.pending - {name})])
  }

  /** The listed objects that parse; the others are skipped. */
  function Sweepable(c: Cluster): map<string, Object> {
    map name | name in c.objects && Parse(name, c.objects[name].raw).Some? :: c.objects[name]
  }

  /** allocationIsStale: the claim under the recorded name is gone or has another UID. */
  function SweepOne(s: State, thread: nat, name: string): State
    requires thread in s.sweeps && s.sweeps[thread].Scanning? && name in s.sweeps[thread].pending
    requires Parse(name, s.sweeps[thread].pending[name].raw).Some?
  {
    var t := s.sweeps[thread];
    var stored := t.pending[name];
    var claim := Parse(name, stored.raw).value.claim;
    var key := ClaimKey(claim.namespace, claim.name);
    var rest := t.pending - {name};
    var stale := key !in s.cluster.live || s.cluster.live[key] != claim.uid;
    s.(sweeps := s.sweeps[thread := if stale then Judged(rest, name, stored.uid) else Scanning(rest)])
  }

  function SweepRemove(s: State, thread: nat, answered: bool): State
    requires thread in s.sweeps && s.sweeps[thread].Judged?
  {
    var t := s.sweeps[thread];
    var conflict := t.name in s.cluster.objects && s.cluster.objects[t.name].uid != t.uid;
    s.(cluster := Delete(s.cluster, t.name, t.uid, false),
       sweeps := if conflict || !answered then s.sweeps - {thread} else s.sweeps[thread := Scanning(t.pending)])
  }

  predicate WorldEnabled(c: Cluster, o: Outside) {
    match o
    case ClaimCreate(key, uid) => key !in c.live && uid !in c.issued && uid != ""
    case ClaimDelete(key) => key in c.live
    case PoolsEdit(pools) => PoolsWellFormed(pools)
    case JunkCreate(name, raw) => name !in c.objects && Parse(name, raw).None?
    case JunkDelete(name) => name in c.objects && Parse(name, c.objects[name].raw).None?
  }

  function WorldStep(c: Cluster, o: Outside): Cluster
    requires WorldEnabled(c, o)
  {
    match o
    case ClaimCreate(key, uid) => c.(issued := c.issued[uid := key], live := c.live[key := uid])
    case ClaimDelete(key) => c.(live := c.live - {key})
    case PoolsEdit(pools) => c.(pools := pools)
    case JunkCreate(name, raw) => Create(c, name, raw)
    case JunkDelete(name) => Delete(c, name, c.objects[name].uid, false)
  }

  ghost predicate PrepareEnabled(env: Env, s: State, node: string, p: PrepareStep) {
    if p.Begin? then CanBegin(env, s, node, p.req)
    else
      && node in s.prepares
      && var t := s.prepares[node];
         match p
         case FindClaim(hit) => CanFind(s, node, hit) && t.pool.subnet.Valid()
         case CreateNext(_) => t.Creating? && t.rest != []
         case GetTaken => t.Getting? && t.rest != []
         case SaveLocal => t.Saving?
         case _ => true
  }

  ghost function PrepareNext(env: Env, s: State, node: string, p: PrepareStep): State
    requires PrepareEnabled(env, s, node, p)
  {
    match p
    case Begin(req) => s.(prepares := s.prepares[node := Finding(req, s.cluster.pools[req.pool])])
    case FindClaim(hit) => Find(s, node, hit)
    case CreateNext(answered) => TryCreate(env, s, node, answered)
    case GetTaken => TryGet(env, s, node)
    case SaveLocal => Save(s, node)
    case GiveUp => s.(prepares := s.prepares - {node})
  }

  predicate ReleaseEnabled(s: State, thread: nat, r: ReleaseStep) {
    if r.BeginRelease? then thread !in s.releases
    else
      && thread in s.releases
      && var t := s.releases[thread];
         match r
         case ListOwned => t.Listing?
         case DeleteOwned(name, _) => t.Deleting? && name in t.pending
         case RemoveCdi => t.Deleting? && t.pending == map[]
         case ForgetClaim => t.Forgetting?
         case _ => true
  }

  function ReleaseNext(s: State, thread: nat, r: ReleaseStep): State
    requires ReleaseEnabled(s, thread, r)
  {
    match r
    case BeginRelease(node, claim) => s.(releases := s.releases[thread := Listing(node, claim)])
    case ListOwned =>
      var t := s.releases[thread];
      s.(releases := s.releases[thread := Deleting(t.node, t.claim, OwnedBy(s.cluster, t.claim))])
    case DeleteOwned(name, answered) => ReleaseOne(s, thread, name, answered)
    case RemoveCdi =>
      var t := s.releases[thread];
      s.(releases := s.releases[thread := Forgetting(t.node, t.claim)])
    case ForgetClaim =>
      var t := s.releases[thread];
      s.(local := s.local - {Holder(t.node, t.claim)}, releases := s.releases - {thread})
    case Abort => s.(releases := s.releases - {thread})
  }

  predicate SweepEnabled(s: State, thread: nat, w: SweepStep) {
    if w.ListAll? then thread !in s.sweeps
    else
      && thread in s.sweeps
      && var t := s.sweeps[thread];
         match w
         case GetClaim(name) => t.Scanning? && name in t.pending && Parse(name, t.pending[name].raw).Some?
         case DeleteStale(_) => t.Judged?
         case _ => true
  }

  function SweepNext(s: State, thread: nat, w: SweepStep): State
    requires SweepEnabled(s, thread, w)
  {
    match w
    case ListAll => s.(sweeps := s.sweeps[thread := Scanning(Sweepable(s.cluster))])
    case GetClaim(name) => SweepOne(s, thread, name)
    case DeleteStale(answered) => SweepRemove(s, thread, answered)
    case Stop => s.(sweeps := s.sweeps - {thread})
  }

  ghost predicate Enabled(env: Env, s: State, e: Event) {
    match e
    case World(o) => WorldEnabled(s.cluster, o)
    case OnNode(node, p) => PrepareEnabled(env, s, node, p)
    case InRelease(thread, r) => ReleaseEnabled(s, thread, r)
    case InSweep(thread, w) => SweepEnabled(s, thread, w)
  }

  ghost function Step(env: Env, s: State, e: Event): State
    requires Enabled(env, s, e)
  {
    match e
    case World(o) => s.(cluster := WorldStep(s.cluster, o))
    case OnNode(node, p) => PrepareNext(env, s, node, p)
    case InRelease(thread, r) => ReleaseNext(s, thread, r)
    case InSweep(thread, w) => SweepNext(s, thread, w)
  }

  /** A cluster that has neither claims nor allocations yet. */
  ghost predicate Init(s: State) {
    && s.cluster.objects == map[] && s.cluster.history == map[] && s.cluster.released == {}
    && s.cluster.issued == map[] && s.cluster.live == map[] && PoolsWellFormed(s.cluster.pools)
    && s.prepares == map[] && s.local == map[] && s.releases == map[] && s.sweeps == map[]
  }

  /** A run: each event is enabled where it happens and leads to the next state. */
  ghost predicate IsRun(env: Env, states: seq<State>, events: seq<Event>) {
    && |states| == |events| + 1
    && Init(states[0])
    && forall i :: 0 <= i < |events| ==> Enabled(env, states[i], events[i]) && states[i + 1] == Step(env, states[i], events[i])
  }
}
