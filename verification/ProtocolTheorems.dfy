/** What the allocation protocol guarantees in every run, under every interleaving. */
module ProtocolTheorems {
  import opened Text
  import opened Ipv4
  import opened Pools
  import opened Allocations
  import opened Protocol
  import opened ProtocolInvariant

  /** The claim of the well-formed allocation stored under this name. */
  ghost function ClaimAt(c: Cluster, name: string): string
    requires name in c.objects && Parse(name, c.objects[name].raw).Some?
  {
    Parse(name, c.objects[name].raw).value.claim.uid
  }

  // ---------------------------------------------------------------- history along a run

  function Clusters(states: seq<State>): (r: seq<Cluster>)
    ensures |r| == |states| && forall k :: 0 <= k < |states| ==> r[k] == states[k].cluster
  {
    if states == [] then [] else Clusters(states[..|states| - 1]) + [states[|states| - 1].cluster]
  }

  ghost predicate Growing(clusters: seq<Cluster>) {
    forall k :: 1 <= k < |clusters| ==> Extends(clusters[k - 1], clusters[k])
  }

  lemma {:induction false} GrowingExtends(clusters: seq<Cluster>, i: nat, j: nat)
    requires Growing(clusters) && i <= j < |clusters|
    ensures Extends(clusters[i], clusters[j])
    decreases j
  {
    if i < j {
      GrowingExtends(clusters, i, j - 1);
    }
  }

  lemma RunExtends(env: Env, states: seq<State>, events: seq<Event>, i: nat, j: nat)
    requires IsRun(env, states, events) && i <= j < |states|
    ensures Extends(states[i].cluster, states[j].cluster)
  {
    RunGrows(env, states, events);
    GrowingExtends(Clusters(states), i, j);
  }

  lemma RunGrows(env: Env, states: seq<State>, events: seq<Event>)
    requires IsRun(env, states, events)
    ensures Growing(Clusters(states))
  {
    forall k | 1 <= k < |states|
      ensures Extends(Clusters(states)[k - 1], Clusters(states)[k])
    {
      NextExtends(env, states, events, k);
    }
  }

  lemma NextExtends(env: Env, states: seq<State>, events: seq<Event>, k: nat)
    requires IsRun(env, states, events) && 1 <= k <= |events|
    ensures Extends(Clusters(states)[k - 1], Clusters(states)[k])
  {
    RunKeeps(env, states, events, k - 1);
    StepExtends(env, states[k - 1], events[k - 1]);
    assert states[k] == Step(env, states[k - 1], events[k - 1]);
  }

  /** Event k is a Delete, in a release of its own claim, that removes the object with this UID. */
  ghost predicate ReleasedAt(s: State, e: Event, uid: nat) {
    && e.InRelease? && e.release.DeleteOwned? && e.thread in s.releases && s.releases[e.thread].Deleting?
    && e.release.name in s.releases[e.thread].pending && s.releases[e.thread].pending[e.release.name] == uid
    && DeleteHits(s.cluster, e.release.name, uid)
  }

  lemma {:induction false} ReleasedOnlyThen(env: Env, states: seq<State>, events: seq<Event>, i: nat, j: nat, uid: nat)
    requires IsRun(env, states, events) && i <= j < |states|
    requires uid !in states[i].cluster.released
    requires forall k :: i <= k < j ==> !ReleasedAt(states[k], events[k], uid)
    ensures uid !in states[j].cluster.released
    decreases j
  {
    if i < j {
      ReleasedOnlyThen(env, states, events, i, j - 1, uid);
      ReleasedNext(env, states, events, j - 1, uid);
    }
  }

  lemma ReleasedNext(env: Env, states: seq<State>, events: seq<Event>, k: nat, uid: nat)
    requires IsRun(env, states, events) && k < |events|
    requires uid !in states[k].cluster.released && !ReleasedAt(states[k], events[k], uid)
    ensures uid !in states[k + 1].cluster.released
  {
    ReleasedStep(env, states[k], events[k], uid);
  }

  lemma ReleasedStep(env: Env, s: State, e: Event, uid: nat)
    requires Enabled(env, s, e) && !ReleasedAt(s, e, uid) && uid !in s.cluster.released
    ensures uid !in Step(env, s, e).cluster.released
  {
    if e.OnNode? {
      PrepareReleasesNothing(env, s, e.node, e.prepare);
    }
  }

  lemma PrepareReleasesNothing(env: Env, s: State, node: string, p: PrepareStep)
    requires PrepareEnabled(env, s, node, p)
    ensures PrepareNext(env, s, node, p).cluster.released == s.cluster.released
  {
    if !p.CreateNext? {
      PrepareLeavesCluster(env, s, node, p);
    }
  }

  /** A release only ever removes objects of the claim it releases. */
  lemma ReleaseTakesItsOwn(env: Env, states: seq<State>, events: seq<Event>, k: nat, uid: nat)
    requires IsRun(env, states, events) && k < |events| && ReleasedAt(states[k], events[k], uid)
    ensures var s, e := states[k], events[k];
            Owns(s.cluster, s.releases[e.thread].claim, e.release.name) && s.cluster.objects[e.release.name].uid == uid
  {
    RunKeeps(env, states, events, k);
    assert ReleaseInv(states[k].cluster, states[k].releases[events[k].thread]);
  }

  // ---------------------------------------------------------------- safety

  /** At no moment do two allocations carry the same pool and address. */
  lemma NoAddressShared(env: Env, states: seq<State>, events: seq<Event>, i: nat, m: string, n: string)
    requires IsRun(env, states, events) && i < |states|
    requires m in states[i].cluster.objects && Parse(m, states[i].cluster.objects[m].raw).Some?
    requires n in states[i].cluster.objects && Parse(n, states[i].cluster.objects[n].raw).Some?
    requires var a := Parse(m, states[i].cluster.objects[m].raw).value;
             var b := Parse(n, states[i].cluster.objects[n].raw).value;
             a.pool == b.pool && a.address == b.address
    ensures m == n
  {
    RunKeeps(env, states, events, i);
    var c := states[i].cluster;
    assert WellNamed(env, c, c.history[c.objects[m].uid]);
    assert WellNamed(env, c, c.history[c.objects[n].uid]);
  }

  /** At no moment does a claim own two allocations, even after replies to Create were lost. */
  lemma AtMostOneAllocation(env: Env, states: seq<State>, events: seq<Event>, i: nat, claim: string, m: string, n: string)
    requires IsRun(env, states, events) && i < |states|
    requires Owns(states[i].cluster, claim, m) && Owns(states[i].cluster, claim, n)
    ensures m == n
  {
    RunKeeps(env, states, events, i);
  }

  /** An allocation stays, under its UID and with its spec, while its claim exists
      and no release of that claim has removed it, whatever everybody else does. */
  lemma KeptUntilReleased(env: Env, states: seq<State>, events: seq<Event>, i: nat, j: nat, name: string)
    requires IsRun(env, states, events) && i <= j < |states|
    requires name in states[i].cluster.objects && Parse(name, states[i].cluster.objects[name].raw).Some?
    requires Alive(states[j].cluster, ClaimAt(states[i].cluster, name))
    requires forall k :: i <= k < j ==> !ReleasedAt(states[k], events[k], states[i].cluster.objects[name].uid)
    ensures name in states[j].cluster.objects && states[j].cluster.objects[name] == states[i].cluster.objects[name]
  {
    var c, d := states[i].cluster, states[j].cluster;
    var uid := c.objects[name].uid;
    RunKeeps(env, states, events, i);
    RunKeeps(env, states, events, j);
    RunExtends(env, states, events, i, j);
    ReleasedOnlyThen(env, states, events, i, j, uid);
    assert KeptOrGone(d, uid);
    assert d.history[d.objects[name].uid] == Made(name, d.objects[name].raw);
  }

  /** The controller deletes only allocations whose claim no longer exists, and never will again,
      although it listed the object and looked up the claim at two earlier moments. */
  lemma SweepSparesTheLiving(env: Env, states: seq<State>, events: seq<Event>, k: nat, j: nat, name: string)
    requires IsRun(env, states, events) && k < |events| && k <= j < |states|
    requires events[k].InSweep? && events[k].sweep.DeleteStale?
    requires name in states[k].cluster.objects && name !in states[k + 1].cluster.objects
    ensures Parse(name, states[k].cluster.objects[name].raw).Some?
    ensures !Alive(states[j].cluster, ClaimAt(states[k].cluster, name))
  {
    RunKeeps(env, states, events, k);
    var c, w := states[k].cluster, states[k].sweeps[events[k].thread];
    assert SweepInv(c, w) && w.Judged?;
    assert name == w.name && c.objects[name].uid == w.uid;
    assert c.history[w.uid] == Made(name, c.objects[name].raw);
    assert WellNamed(env, c, c.history[w.uid]);
    RunExtends(env, states, events, k, j);
  }

  /** Of all the claims that hold an address in some node's store, exist, and have not
      released it, no two hold the same one; and the cluster object says so. */
  lemma ExclusiveHolders(env: Env, states: seq<State>, events: seq<Event>, i: nat, g: Holder, h: Holder)
    requires IsRun(env, states, events) && i < |states|
    requires g in states[i].local && h in states[i].local
    requires states[i].local[g].pool == states[i].local[h].pool && states[i].local[g].address == states[i].local[h].address
    requires Alive(states[i].cluster, g.claim) && states[i].local[g].backing !in states[i].cluster.released
    requires Alive(states[i].cluster, h.claim) && states[i].local[h].backing !in states[i].cluster.released
    ensures g == h
    ensures Owns(states[i].cluster, g.claim, env.nameOf(states[i].local[g].pool, states[i].local[g].address))
  {
    RunKeeps(env, states, events, i);
    HeldInCluster(env, states[i], g);
    HeldInCluster(env, states[i], h);
    assert LocalInv(env, states[i].cluster, g, states[i].local[g]);
    assert LocalInv(env, states[i].cluster, h, states[i].local[h]);
  }

  lemma HeldInCluster(env: Env, s: State, h: Holder)
    requires Inv(env, s) && h in s.local
    requires Alive(s.cluster, h.claim) && s.local[h].backing !in s.cluster.released
    ensures var name := env.nameOf(s.local[h].pool, s.local[h].address);
            Owns(s.cluster, h.claim, name) && s.cluster.objects[name].uid == s.local[h].backing
            && Parse(name, s.cluster.objects[name].raw).value.pool == s.local[h].pool
            && Parse(name, s.cluster.objects[name].raw).value.address == s.local[h].address
  {
  }

  // ---------------------------------------------------------------- retries

  /** Whatever object was made for a living claim and not released is what the next prepare finds:
      in particular one whose Create took effect while its reply was lost. */
  lemma FindsWhatWasMade(env: Env, states: seq<State>, events: seq<Event>, j: nat, uid: nat)
    requires IsRun(env, states, events) && j < |events| && events[j].OnNode? && events[j].prepare.FindClaim?
    requires uid in states[j].cluster.history && uid !in states[j].cluster.released
    requires states[j].cluster.history[uid].Parsed().Some?
    requires var claim := states[j].cluster.history[uid].Parsed().value.claim.uid;
             Alive(states[j].cluster, claim) && states[j].prepares[events[j].node].req.claim == claim
    ensures events[j].prepare.hit == Some(states[j].cluster.history[uid].name)
  {
    RunKeeps(env, states, events, j);
    var s, e := states[j], events[j];
    assert Enabled(env, s, e);
    var m := s.cluster.history[uid];
    assert KeptOrGone(s.cluster, uid);
    assert s.cluster.history[s.cluster.objects[m.name].uid] == Made(m.name, s.cluster.objects[m.name].raw);
    assert Owns(s.cluster, s.prepares[e.node].req.claim, m.name);
  }

  /** A Create under a free name makes the object of this claim, pool and address, answered or not. */
  lemma CreateLeavesObject(env: Env, states: seq<State>, events: seq<Event>, i: nat)
    requires IsRun(env, states, events) && i < |events| && events[i].OnNode? && events[i].prepare.CreateNext?
    requires NameFor(env, states[i].prepares[events[i].node]) !in states[i].cluster.objects
    ensures var t := states[i].prepares[events[i].node];
            MadeFor(states[i + 1].cluster, states[i].cluster.nextUid, t.req.claim, t.pool.name,
                    CidrText(t.rest[0], t.pool.subnet.ones))
            && DeleteHits(states[i + 1].cluster, NameFor(env, t), states[i].cluster.nextUid)
            && (!events[i].prepare.answered ==> events[i].node !in states[i + 1].prepares)
  {
    RunKeeps(env, states, events, i);
    var s, node := states[i], events[i].node;
    assert Enabled(env, s, events[i]);
    assert PrepareInv(env, s.cluster, node, s.prepares[node]);
    DriverSpecParses(env, s.cluster, node, s.prepares[node]);
  }

  /** When a prepare succeeds, the node's store holds the address it returns, the cluster object
      was made for exactly that claim, pool and address, and is still there if the claim exists
      and did not release it meanwhile. */
  lemma SuccessAgrees(env: Env, states: seq<State>, events: seq<Event>, i: nat)
    requires IsRun(env, states, events) && i < |events|
    requires events[i].OnNode? && events[i].prepare.SaveLocal? && SaveSucceeds(states[i], events[i].node)
    ensures var t := states[i].prepares[events[i].node];
            var holder := Holder(events[i].node, t.req.claim);
            && holder in states[i + 1].local
            && states[i + 1].local[holder].pool == t.pool.name && states[i + 1].local[holder].address == t.address
            && MadeFor(states[i + 1].cluster, t.backing, t.req.claim, t.pool.name, t.address)
            && (Alive(states[i + 1].cluster, t.req.claim) && t.backing !in states[i + 1].cluster.released ==>
                  DeleteHits(states[i + 1].cluster, env.nameOf(t.pool.name, t.address), t.backing))
  {
    RunKeeps(env, states, events, i);
    var s := states[i];
    var t := s.prepares[events[i].node];
    assert Enabled(env, s, events[i]) && states[i + 1] == Save(s, events[i].node);
    assert PrepareInv(env, s.cluster, events[i].node, t);
    assert KeptOrGone(s.cluster, t.backing) && WellNamed(env, s.cluster, s.cluster.history[t.backing]);
  }

  /** Event k clears the node's store of the claim. */
  ghost predicate ForgetsAt(s: State, e: Event, h: Holder) {
    e.InRelease? && e.release.ForgetClaim? && e.thread in s.releases && Holder(s.releases[e.thread].node, s.releases[e.thread].claim) == h
  }

  lemma LocalStep(env: Env, s: State, e: Event, h: Holder)
    requires Enabled(env, s, e) && h in s.local && !ForgetsAt(s, e, h)
    ensures h in Step(env, s, e).local && Step(env, s, e).local[h] == s.local[h]
  {
    if e.OnNode? {
      PrepareKeepsLocal(env, s, e.node, e.prepare, h);
    }
  }

  lemma PrepareKeepsLocal(env: Env, s: State, node: string, p: PrepareStep, h: Holder)
    requires PrepareEnabled(env, s, node, p) && h in s.local
    ensures var s' := PrepareNext(env, s, node, p); h in s'.local && s'.local[h] == s.local[h]
  {
    match p
    case FindClaim(hit) =>
    case CreateNext(_) =>
    case GetTaken =>
    case SaveLocal =>
    case _ =>
  }

  lemma {:induction false} LocalPersists(env: Env, states: seq<State>, events: seq<Event>, i: nat, j: nat, h: Holder)
    requires IsRun(env, states, events) && i <= j < |states| && h in states[i].local
    requires forall k :: i <= k < j ==> !ForgetsAt(states[k], events[k], h)
    ensures h in states[j].local && states[j].local[h] == states[i].local[h]
    decreases j
  {
    if i < j {
      LocalPersists(env, states, events, i, j - 1, h);
      assert !ForgetsAt(states[j - 1], events[j - 1], h);
      LocalStep(env, states[j - 1], events[j - 1], h);
    }
  }

  /** Until the node forgets the claim, every successful prepare of it returns the same pool and address. */
  lemma SameAnswer(env: Env, states: seq<State>, events: seq<Event>, i: nat, j: nat)
    requires IsRun(env, states, events) && i < j < |events|
    requires events[i].OnNode? && events[i].prepare.SaveLocal? && SaveSucceeds(states[i], events[i].node)
    requires events[j].OnNode? && events[j].prepare.SaveLocal? && SaveSucceeds(states[j], events[j].node)
    requires events[i].node == events[j].node
    requires states[i].prepares[events[i].node].req.claim == states[j].prepares[events[j].node].req.claim
    requires forall k :: i < k < j ==>
               !ForgetsAt(states[k], events[k], Holder(events[i].node, states[i].prepares[events[i].node].req.claim))
    ensures states[i].prepares[events[i].node].address == states[j].prepares[events[j].node].address
    ensures states[i].prepares[events[i].node].pool.name == states[j].prepares[events[j].node].pool.name
  {
    SuccessAgrees(env, states, events, i);
    var h := Holder(events[i].node, states[i].prepares[events[i].node].req.claim);
    LocalPersists(env, states, events, i + 1, j, h);
  }

  /** Repeating the prepare of a claim that holds an address cannot lead anywhere else: its lookup hits
      the claim's object and proceeds to save exactly the stored pair, which then succeeds. */
  lemma RepeatReachesSameAddress(env: Env, states: seq<State>, events: seq<Event>, j: nat, h: Holder)
    requires IsRun(env, states, events) && j < |events| && events[j].OnNode? && events[j].prepare.FindClaim?
    requires h in states[j].local && events[j].node == h.node
    requires Alive(states[j].cluster, h.claim) && states[j].local[h].backing !in states[j].cluster.released
    requires states[j].prepares[h.node].req.claim == h.claim
    requires states[j].prepares[h.node].pool.name == states[j].local[h].pool
    ensures h.node in states[j + 1].prepares
    ensures var t := states[j + 1].prepares[h.node];
            t.Saving? && t.address == states[j].local[h].address && t.backing == states[j].local[h].backing
    ensures SaveSucceeds(states[j + 1], h.node)
  {
    RunKeeps(env, states, events, j);
    var s := states[j];
    assert Enabled(env, s, events[j]);
    assert LocalInv(env, s.cluster, h, s.local[h]);
    HeldInCluster(env, s, h);
    FindsWhatWasMade(env, states, events, j, s.local[h].backing);
    assert states[j + 1] == Find(s, h.node, events[j].prepare.hit);
  }
}
