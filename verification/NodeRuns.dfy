/** The driver's handlers on one node, and what every run of them keeps: no NIC is ever away
    from the host without a stored record that will bring it home.

    Each handler is told on two levels. Whatever links there are, records stay consistent, and it is said exactly
    when the promise is kept: a restore may take another link for the NIC. And where nothing is ambiguous, that
    does not happen and nothing becomes ambiguous. */
module NodeRuns {
  import opened Text
  import opened NodeStore
  import opened Kernel
  import opened HostDevice
  import opened NodeRecords

  /** One restore: the record, the namespace searched besides the host's, and the link taken for the NIC. */
  datatype Search = Search(slot: Slot, path: string, touched: Option<nat>)

  /** A round of a loop that has `left` still to do when it begins. */
  datatype Round = Round(search: Search, task: Task, left: set<Slot>)

  /** An attach in a loop that had `left` to do when the round began. */
  datatype Attached = Attached(slot: Slot, left: set<Slot>, ok: bool, moved: bool, path: string, done: set<Slot>, slots: set<Slot>, start: View)

  class Node {
    const kernel: Netlink
    const store: Store
    ghost const nics: set<nat>                  // the NICs that may be lent
    ghost var nicOf: map<HostDeviceState, nat>  // the NIC each snapshot was taken of
    ghost var unreported: nat                   // the calls to the cluster that failed

    /** The calls of any kind that failed. */
    ghost function Failures(): nat
      reads this`unreported, kernel`failures, store`failures
    {
      kernel.failures + store.failures + unreported
    }

    /** The records are those of the NICs. */
    ghost predicate Consistent()
      reads this`nicOf, kernel`links, store`pods
    {
      && kernel.Valid() && nics <= kernel.links.Keys
      && RecordsMade(store.pods, nicOf, nics) && NicsApart(store.pods, nicOf)
    }

    /** And no lookup can mistake another link for one of them. */
    ghost predicate Valid()
      reads this`nicOf, kernel`links, store`pods
    {
      Consistent() && RecordsApart(store.pods, nicOf) && AllClear(store.pods, nicOf, kernel.links)
    }

    /** The promise: a NIC outside the host namespace has a stored record, not marked restored. */
    ghost predicate NeverLost()
      reads this`nicOf, kernel`links, kernel`undeleted, store`pods, nicOf.Keys
    {
      AllRemembered(store.pods, nicOf, Flags(), nics, kernel.links)
    }

    ghost function Flags(): map<HostDeviceState, bool>
      reads this`nicOf, nicOf.Keys
    {
      map h | h in nicOf :: h.restored
    }

    ghost predicate Inv()
      reads this`nicOf, kernel`links, kernel`undeleted, store`pods, nicOf.Keys
    {
      Valid() && NeverLost()
    }

    constructor (kernel: Netlink, ghost nics: set<nat>)
      requires kernel.Valid() && nics <= kernel.links.Keys && forall i :: i in nics ==> kernel.links[i].ns == Host
      ensures Inv() && this.kernel == kernel && this.nics == nics && fresh(store) && nicOf == map[]
    {
      this.kernel, this.nics, this.nicOf := kernel, nics, map[];
      store := new Store();
    }

    // -------------------------------------------------------------- restoring one record

    /** What one restore does: at most one link changes, one that answers to the record, and the flag is raised
        only when that link is home. */
    twostate predicate Restored(x: Search)
      requires HasNic(old(store.pods), x.slot) && State(old(store.pods), x.slot) in old(nicOf)
      reads this`nicOf, kernel`links, kernel`undeleted, store`pods, nicOf.Keys
    {
      var cfg := Rec(old(store.pods), x.slot);
      && nicOf == old(nicOf)
      && store.pods == (if !cfg.hostDevice.restored then old(store.pods)
                        else WithDevice(old(store.pods), x.slot.pod, x.slot.key, cfg.(attachedIf := "", lifecycle := "Restored")))
      && (old(kernel.undeleted) ==> kernel.undeleted)
      && match x.touched
         case None => kernel.links == old(kernel.links) && !cfg.hostDevice.restored
         case Some(i) =>
           && i in old(kernel.links) && OnlyChanges(old(kernel.links), kernel.links, i)
           && AnswersTo(old(kernel.links)[i], x.path, cfg) && Searched(old(kernel.links)[i].ns, x.path)
           && Underway(old(kernel.links)[i], kernel.links[i], cfg.hostDevice)
           && (cfg.hostDevice.restored ==> kernel.links[i].ns == Host)
           && (cfg.hostDevice.restored && !kernel.undeleted ==>
                 kernel.links[i] == SavedLink(old(kernel.links)[i].(ns := Host), cfg.hostDevice))
    }

    /** It succeeded on another link while the NIC is away. */
    twostate predicate Misled(x: Search)
      requires HasNic(old(store.pods), x.slot) && State(old(store.pods), x.slot) in nicOf
      requires nicOf[State(old(store.pods), x.slot)] in old(kernel.links)
      reads this`nicOf, kernel`links, kernel`undeleted, store`pods, nicOf.Keys
    {
      var h := State(old(store.pods), x.slot);
      h.restored && x.touched != Some(nicOf[h]) && old(kernel.links)[nicOf[h]].ns != Host
    }

    method RestoreRecord(s: Slot, path: string) returns (restored: bool, saved: bool, ghost touched: Option<nat>)
      requires Consistent() && HasNic(store.pods, s) && !State(store.pods, s).restored
      modifies kernel, store`pods, store`failures, State(store.pods, s)
      ensures kernel.Valid() && Restored(Search(s, path, touched))
      ensures restored == State(old(store.pods), s).restored && (saved ==> restored)
      ensures Failures() >= old(Failures()) && (Failures() == old(Failures()) && restored ==> saved)
      ensures Failures() == old(Failures()) && old(Able(store.pods, nicOf, kernel.links, s, path)) ==> restored
    {
      assert Able(store.pods, nicOf, kernel.links, s, path) ==>
          Restorable(kernel.links, path, Rec(store.pods, s), nicOf[State(store.pods, s)]);
      var cfg := store.pods[s.pod].devices[s.key];
      var cfg';
      saved := false;
      restored, cfg', touched := RestoreHostDevice(kernel, path, cfg);
      if restored {
        saved := store.SetDevice(s.pod, s.key, cfg');
      }
    }

    twostate lemma RestoreKeepsConsistent(x: Search)
      requires old(Consistent()) && HasNic(old(store.pods), x.slot) && Restored(x) && kernel.Valid()
      ensures Consistent() && OnlyRecord(old(store.pods), store.pods, x.slot)
    {
      var pods, cfg := old(store.pods), Rec(old(store.pods), x.slot);
      WithDeviceOnlyRecord(pods, x.slot, cfg.(attachedIf := "", lifecycle := "Restored"));
      RecordsStayMade(pods, store.pods, nicOf, nics, x.slot);
    }

    twostate lemma RestoreAndPromise(x: Search)
      requires old(Consistent() && NeverLost()) && HasNic(old(store.pods), x.slot) && Restored(x)
      requires Consistent() && OnlyRecord(old(store.pods), store.pods, x.slot)
      requires forall h :: h in nicOf && h != State(old(store.pods), x.slot) ==> h.restored == old(h.restored)
      ensures NeverLost() <==> !Misled(x)
    {
      PromiseAfterOne(old(store.pods), store.pods, nicOf, old(Flags()), Flags(), nics, old(kernel.links), kernel.links, x.slot);
    }

    twostate lemma RestoreKeepsValid(x: Search)
      requires old(Valid()) && HasNic(old(store.pods), x.slot) && Restored(x)
      requires Consistent() && OnlyRecord(old(store.pods), store.pods, x.slot)
      requires x.path != "" ==> ClearAt(old(store.pods), nicOf, old(kernel.links), x.slot, x.path)
      ensures Valid() && (x.touched.Some? ==> x.touched.value == nicOf[State(store.pods, x.slot)])
    {
      var pods, links := old(store.pods), old(kernel.links);
      var cfg, nic := Rec(pods, x.slot), nicOf[State(pods, x.slot)];
      assert Clear(links, Path(pods, x.slot), cfg, nic);
      if x.touched.Some? {
        assert AnswersTo(links[x.touched.value], Path(pods, x.slot), cfg) || x.path != "";
      }
      RecordsStay(pods, store.pods, nicOf, nics, x.slot);
      RestoreStaysClear(pods, store.pods, nicOf, nics, links, kernel.links, x.slot, x.path);
    }

    /** One round of the loops in restorePodHostDevices, restoreClaimHostDevices and Synchronize. An empty path means
        that only the host namespace is searched. The promise is broken exactly when another link is taken for the
        NIC while it is away. That cannot be if no other link answers to the record; and if another link has the
        NIC's name in the host namespace, every success does it. A restored record is free to be attached again,
        and says Restored: see AttachSlot. When nothing stands in the way and no call fails, it succeeds. */
    method RestoreSlot(s: Slot, path: string) returns (restored: bool, saved: bool, ghost touched: Option<nat>)
      requires Consistent() && HasNic(store.pods, s) && !State(store.pods, s).restored
      modifies kernel, store`pods, store`failures, State(store.pods, s)
      ensures Consistent() && OnlyRecord(old(store.pods), store.pods, s) && Restored(Search(s, path, touched))
      ensures restored == State(old(store.pods), s).restored && (saved ==> restored)
      ensures restored ==> HasNic(store.pods, s) && Rec(store.pods, s).attachedIf == ""
      ensures Failures() >= old(Failures()) && (Failures() == old(Failures()) && restored ==> saved)
      ensures Failures() == old(Failures()) && old(Able(store.pods, nicOf, kernel.links, s, path)) ==> restored && saved
      ensures old(NeverLost()) ==> (NeverLost() <==> !Misled(Search(s, path, touched)))
      ensures old(NeverLost() && OnlyNicAnswers(s, path)) ==> NeverLost()
      ensures old(NeverLost() && HostNameTaken(s)) ==> (NeverLost() <==> !restored)
      ensures old(Valid()) && (path != "" ==> old(ClearAt(store.pods, nicOf, kernel.links, s, path))) ==>
                Valid() && (touched.Some? ==> touched.value == nicOf[State(store.pods, s)])
    {
      restored, saved, touched := RestoreRecord(s, path);
      RestoreKeepsConsistent(Search(s, path, touched));
      if old(NeverLost()) {
        RestoreAndPromise(Search(s, path, touched));
        if old(HostNameTaken(s)) && restored {
          TakenNameMisleads(Search(s, path, touched));
        }
      }
      if old(Valid()) && (path != "" ==> ClearAt(old(store.pods), nicOf, old(kernel.links), s, path)) {
        RestoreKeepsValid(Search(s, path, touched));
      }
    }

    /** No other link answers to the record, looked for at this path. */
    ghost predicate OnlyNicAnswers(s: Slot, path: string)
      requires Consistent() && HasNic(store.pods, s)
      reads this`nicOf, kernel`links, store`pods
    {
      Clear(kernel.links, path, Rec(store.pods, s), nicOf[State(store.pods, s)])
    }

    /** The NIC is away, and another link has its name in the host namespace. */
    ghost predicate HostNameTaken(s: Slot)
      requires Consistent() && HasNic(store.pods, s)
      reads this`nicOf, kernel`links, store`pods
    {
      var h := State(store.pods, s);
      kernel.links[nicOf[h]].ns != Host && exists i :: i in kernel.links && kernel.links[i].ns == Host && kernel.links[i].name == h.originalName
    }

    twostate lemma TakenNameMisleads(x: Search)
      requires old(Consistent()) && kernel.Valid() && HasNic(old(store.pods), x.slot) && Restored(x)
      requires old(HostNameTaken(x.slot)) && State(old(store.pods), x.slot).restored
      ensures Misled(x)
    {
      var h := State(old(store.pods), x.slot);
      var i :| i in old(kernel.links) && old(kernel.links)[i].ns == Host && old(kernel.links)[i].name == h.originalName;
      assert x.touched.value != i ==> kernel.links[i] == old(kernel.links)[i];
    }

    // -------------------------------------------------------------- restoring many

    /** Where things will be once the claim's NICs are home and its records dropped. */
    ghost function Destination(claim: string): (Links, map<string, PodConfig>)
      reads this`nicOf, kernel`links, kernel`undeleted, store`pods, nicOf.Keys
    {
      (HomedLinks(store.pods, nicOf, Flags(), kernel.links, claim), WithoutClaim(store.pods, claim))
    }

    /** Neither what will be left of the store nor, unless an address delete has failed, where the links will be has changed. */
    twostate predicate SameDestination(claim: string)
      reads this`nicOf, kernel`links, kernel`undeleted, store`pods, nicOf.Keys
    {
      && Destination(claim).1 == old(Destination(claim)).1
      && (!kernel.undeleted ==> Destination(claim).0 == old(Destination(claim)).0)
    }

    /** No lookup of the loop can mistake another link for one of the NICs. */
    ghost predicate Plain(task: Task)
      reads this`nicOf, kernel`links, store`pods
    {
      Valid() && AllReachable(store.pods, nicOf, kernel.links, task.slots, task.at)
    }

    ghost predicate Hopeful(task: Task, left: set<Slot>)
      reads this`nicOf, kernel`links, store`pods, nicOf.Keys
    {
      Awaited(store.pods, nicOf, Flags(), kernel.links, task, left)
    }

    /** Restores the NIC if the record holds one that is not restored. It is looked for at the given path, else where
        the record's pod is, else in the host namespace only. */
    method RestoreIfNeeded(s: Slot, at: string, searchPods: bool, ghost task: Task, ghost left: set<Slot>)
      returns (restored: bool, saved: bool)
      requires Consistent() && Stored(store.pods, s) && s in task.slots && task.able <= task.slots
      requires at == task.at && searchPods == task.searchPods
      modifies kernel, store`pods, store`failures, nicOf.Keys
      ensures Consistent() && nicOf == old(nicOf) && OnlyThese(old(store.pods), old(Flags()), store.pods, Flags(), {s})
      ensures (restored ==> AllRestored(store.pods, Flags(), {s})) && (saved ==> restored)
      ensures OnlyHomeward(old(kernel.links), kernel.links) && (old(kernel.undeleted) ==> kernel.undeleted)
      ensures old(Plain(task)) ==>
                Plain(task) && (old(NeverLost()) ==> NeverLost())
                && (Rec(old(store.pods), s).claimUID == task.claim ==> SameDestination(task.claim))
      ensures Failures() >= old(Failures()) && (Failures() == old(Failures()) && restored ==> saved)
      ensures old(AllRestored(store.pods, Flags(), {s})) ==> saved
      ensures old(Plain(task) && Hopeful(task, left)) && Failures() == old(Failures()) ==>
                Hopeful(task, left - {s}) && (s in task.able ==> restored)
    {
      restored, saved := true, true;
      var cfg := store.pods[s.pod].devices[s.key];
      if cfg.netType == HOST_DEVICE && cfg.hostDevice != null && !cfg.hostDevice.restored {
        restored, saved := RestoreHeld(s, if at != "" then at else if searchPods then store.pods[s.pod].netNS else "", task, left);
      }
    }

    method RestoreHeld(s: Slot, path: string, ghost task: Task, ghost left: set<Slot>) returns (restored: bool, saved: bool)
      requires Consistent() && HasNic(store.pods, s) && !State(store.pods, s).restored && s in task.slots && task.able <= task.slots
      requires path == SearchAt(store.pods, s, task.at, task.searchPods)
      modifies kernel, store`pods, store`failures, State(store.pods, s)
      ensures Consistent() && nicOf == old(nicOf) && OnlyThese(old(store.pods), old(Flags()), store.pods, Flags(), {s})
      ensures (restored ==> AllRestored(store.pods, Flags(), {s})) && (saved ==> restored)
      ensures OnlyHomeward(old(kernel.links), kernel.links) && (old(kernel.undeleted) ==> kernel.undeleted)
      ensures old(Plain(task)) ==>
                Plain(task) && (old(NeverLost()) ==> NeverLost())
                && (Rec(old(store.pods), s).claimUID == task.claim ==> SameDestination(task.claim))
      ensures Failures() >= old(Failures()) && (Failures() == old(Failures()) && restored ==> saved)
      ensures old(Plain(task) && Hopeful(task, left)) && Failures() == old(Failures()) ==>
                Hopeful(task, left - {s}) && (s in task.able ==> restored)
    {
      ghost var clear := Plain(task);
      if clear {
        OwnPathClear(s);
      }
      ghost var touched;
      restored, saved, touched := RestoreSlot(s, path);
      RestoreIsOnly(Search(s, path, touched));
      if clear {
        RoundKeeps(Round(Search(s, path, touched), task, left));
      }
    }

    twostate lemma RoundKeeps(y: Round)
      requires old(Plain(y.task)) && Valid() && HasNic(old(store.pods), y.search.slot) && Restored(y.search)
      requires y.search.slot in y.task.slots && y.task.able <= y.task.slots
      requires y.search.path == SearchAt(old(store.pods), y.search.slot, y.task.at, y.task.searchPods)
      requires OnlyRecord(old(store.pods), store.pods, y.search.slot) && !old(State(store.pods, y.search.slot).restored)
      requires y.search.touched.Some? ==> y.search.touched.value == nicOf[State(store.pods, y.search.slot)]
      requires forall h :: h in nicOf && h != State(old(store.pods), y.search.slot) ==> h.restored == old(h.restored)
      ensures Plain(y.task)
      ensures Rec(old(store.pods), y.search.slot).claimUID == y.task.claim ==> SameDestination(y.task.claim)
      ensures old(Hopeful(y.task, y.left)) && (y.search.slot in y.task.able ==> State(old(store.pods), y.search.slot).restored) ==>
                Hopeful(y.task, y.left - {y.search.slot})
    {
      RestoreStaysReachable(y);
      if Rec(old(store.pods), y.search.slot).claimUID == y.task.claim {
        RestoreKeepsDestinations(y.search);
      }
      if old(Hopeful(y.task, y.left)) && (y.search.slot in y.task.able ==> State(old(store.pods), y.search.slot).restored) {
        RestoreStaysHopeful(y);
      }
    }

    twostate lemma RestoreStaysReachable(y: Round)
      requires old(Plain(y.task)) && HasNic(old(store.pods), y.search.slot) && Restored(y.search) && y.search.slot in y.task.slots
      requires OnlyRecord(old(store.pods), store.pods, y.search.slot) && (y.task.at != "" ==> y.search.path == y.task.at)
      requires y.search.touched.Some? ==> y.search.touched.value == nicOf[State(store.pods, y.search.slot)]
      ensures AllReachable(store.pods, nicOf, kernel.links, y.task.slots, y.task.at)
    {
      if y.task.at != "" {
        ReachableStays(old(store.pods), store.pods, nicOf, nics, old(kernel.links), kernel.links, y.task.slots, y.search.slot, y.task.at);
      }
    }

    twostate lemma RestoreStaysHopeful(y: Round)
      requires old(Valid()) && Plain(y.task) && HasNic(old(store.pods), y.search.slot) && Restored(y.search) && y.task.able <= y.task.slots
      requires OnlyRecord(old(store.pods), store.pods, y.search.slot)
      requires y.search.touched.Some? ==> y.search.touched.value == nicOf[State(store.pods, y.search.slot)]
      requires forall h :: h in nicOf && h != State(old(store.pods), y.search.slot) ==> h.restored == old(h.restored)
      requires old(Hopeful(y.task, y.left)) && (y.search.slot in y.task.able ==> State(old(store.pods), y.search.slot).restored)
      ensures Hopeful(y.task, y.left - {y.search.slot})
    {
      forall t | t in y.task.able && HasNic(store.pods, t) && SearchAt(old(store.pods), t, y.task.at, y.task.searchPods) != ""
        ensures Clear(kernel.links, SearchAt(old(store.pods), t, y.task.at, y.task.searchPods), Rec(store.pods, t), nicOf[State(store.pods, t)])
      {
        assert Path(store.pods, t) == Path(old(store.pods), t);
      }
      AwaitedStays(old(store.pods), old(Flags()), old(kernel.links), store.pods, Flags(), kernel.links, nicOf, y.search.slot, y.task, y.left);
    }

    lemma OwnPathClear(s: Slot)
      requires Valid() && HasNic(store.pods, s)
      ensures Path(store.pods, s) != "" ==> ClearAt(store.pods, nicOf, kernel.links, s, Path(store.pods, s))
    {
    }

    twostate lemma RestoreIsOnly(x: Search)
      requires old(Consistent()) && HasNic(old(store.pods), x.slot) && Restored(x) && !old(State(store.pods, x.slot).restored)
      requires OnlyRecord(old(store.pods), store.pods, x.slot)
      requires forall h :: h in nicOf && h != State(old(store.pods), x.slot) ==> h.restored == old(h.restored)
      ensures OnlyThese(old(store.pods), old(Flags()), store.pods, Flags(), {x.slot})
      ensures OnlyHomeward(old(kernel.links), kernel.links)
      ensures State(old(store.pods), x.slot).restored ==> AllRestored(store.pods, Flags(), {x.slot})
    {
      OneSlotOnly(old(store.pods), old(Flags()), store.pods, Flags(), nicOf, x.slot);
    }

    twostate lemma RestoreKeepsDestinations(x: Search)
      requires old(Valid()) && Valid() && HasNic(old(store.pods), x.slot) && Restored(x)
      requires x.touched.Some? ==> x.touched.value == nicOf[State(store.pods, x.slot)]
      requires !old(State(store.pods, x.slot).restored)
      requires OnlyRecord(old(store.pods), store.pods, x.slot)
      requires forall h :: h in nicOf && h != State(old(store.pods), x.slot) ==> h.restored == old(h.restored)
      ensures SameDestination(Rec(old(store.pods), x.slot).claimUID)
    {
      var pods := old(store.pods);
      WithoutClaimUnmoved(pods, x.slot, Rec(pods, x.slot).(attachedIf := "", lifecycle := "Restored"));
      if !kernel.undeleted {
        HomedLinksKept(pods, old(Flags()), old(kernel.links), store.pods, Flags(), kernel.links, nicOf, x.slot);
      }
    }

    /** The loop of restorePodHostDevices and restoreClaimHostDevices, in any order. */
    method RestoreAll(slots: set<Slot>, at: string, ghost claim: string) returns (ok: bool)
      requires Consistent() && (forall s :: s in slots ==> Stored(store.pods, s))
      modifies kernel, store`pods, store`failures, nicOf.Keys
      ensures Consistent() && nicOf == old(nicOf) && Progress(old(store.pods), old(Flags()), store.pods, Flags(), slots, {}, ok)
      ensures old(kernel.undeleted) ==> kernel.undeleted
      ensures old(NeverLost()) ==> (NeverLost() <==> RaisedAreHome(store.pods, nicOf, old(Flags()), Flags(), kernel.links))
      ensures old(Valid() && AllReachable(store.pods, nicOf, kernel.links, slots, at)) ==>
                Valid() && (old(NeverLost()) ==> NeverLost())
                && ((forall s :: s in slots ==> Rec(old(store.pods), s).claimUID == claim) ==> SameDestination(claim))
      ensures Failures() >= old(Failures())
      ensures old(Valid() && AllReachable(store.pods, nicOf, kernel.links, slots, at)) && Failures() == old(Failures()) ==>
                && AllRestored(store.pods, Flags(), old(AbleSlots(store.pods, nicOf, kernel.links, slots, at, true)))
                && (old(DueAreAble(store.pods, nicOf, Flags(), kernel.links, slots, at, true)) ==> ok)
    {
      AbleAreAwaited(store.pods, nicOf, Flags(), kernel.links, slots, at, true, claim);
      ghost var able := AbleSlots(store.pods, nicOf, kernel.links, slots, at, true);
      ok := RestoreEach(slots, at, Task(slots, able, at, true, claim));
    }

    method RestoreEach(slots: set<Slot>, at: string, ghost task: Task) returns (ok: bool)
      requires Consistent() && (forall s :: s in slots ==> Stored(store.pods, s))
      requires task.slots == slots && task.able <= slots && task.at == at && task.searchPods
      modifies kernel, store`pods, store`failures, nicOf.Keys
      ensures Consistent() && nicOf == old(nicOf) && Progress(old(store.pods), old(Flags()), store.pods, Flags(), slots, {}, ok)
      ensures old(kernel.undeleted) ==> kernel.undeleted
      ensures old(NeverLost()) ==> (NeverLost() <==> RaisedAreHome(store.pods, nicOf, old(Flags()), Flags(), kernel.links))
      ensures old(Plain(task)) ==>
                Valid() && (old(NeverLost()) ==> NeverLost())
                && ((forall s :: s in slots ==> Rec(old(store.pods), s).claimUID == task.claim) ==> SameDestination(task.claim))
      ensures Failures() >= old(Failures())
      ensures old(Plain(task) && Hopeful(task, slots)) && Failures() == old(Failures()) ==>
                Hopeful(task, {}) && (old(AllRestored(store.pods, Flags(), slots - task.able)) ==> ok)
    {
      ok := true;
      var left := slots;
      ghost var ofClaim := forall s :: s in slots ==> Rec(store.pods, s).claimUID == task.claim;
      ghost var clear, hopeful := Plain(task), Hopeful(task, slots);
      ghost var pods0, flags0, goal := store.pods, Flags(), Destination(task.claim);
      while left != {}
        invariant left <= slots && Consistent() && nicOf == old(nicOf) && Progress(pods0, flags0, store.pods, Flags(), slots, left, ok)
        invariant OnlyHomeward(old(kernel.links), kernel.links) && (old(kernel.undeleted) ==> kernel.undeleted)
        invariant clear ==> Plain(task) && (old(NeverLost()) ==> NeverLost())
        invariant clear && ofClaim ==> Destination(task.claim).1 == goal.1 && (!kernel.undeleted ==> Destination(task.claim).0 == goal.0)
        invariant Failures() >= old(Failures())
        invariant clear && hopeful && Failures() == old(Failures()) ==>
                    Hopeful(task, left) && (AllRestored(pods0, flags0, slots - task.able) ==> ok)
        decreases left
      {
        var s :| s in left;
        ok := RestoreNext(s, ok, at, task, left, pods0, flags0);
        left := left - {s};
      }
      if old(NeverLost()) {
        PromiseAfterMany(pods0, store.pods, nicOf, flags0, Flags(), nics, old(kernel.links), kernel.links);
      }
    }

    /** One round of that loop. */
    method RestoreNext(s: Slot, ok: bool, at: string, ghost task: Task, ghost left: set<Slot>,
                       ghost pods0: map<string, PodConfig>, ghost flags0: map<HostDeviceState, bool>)
      returns (ok': bool)
      requires Consistent() && Stored(pods0, s) && s in task.slots && task.able <= task.slots && task.at == at && task.searchPods
      requires Progress(pods0, flags0, store.pods, Flags(), task.slots, left, ok)
      modifies kernel, store`pods, store`failures, nicOf.Keys
      ensures Consistent() && nicOf == old(nicOf) && Progress(pods0, flags0, store.pods, Flags(), task.slots, left - {s}, ok')
      ensures OnlyHomeward(old(kernel.links), kernel.links) && (old(kernel.undeleted) ==> kernel.undeleted)
      ensures old(Plain(task)) ==>
                Plain(task) && (old(NeverLost()) ==> NeverLost()) && (Rec(pods0, s).claimUID == task.claim ==> SameDestination(task.claim))
      ensures Failures() >= old(Failures())
      ensures old(Plain(task) && Hopeful(task, left)) && Failures() == old(Failures()) ==>
                Hopeful(task, left - {s}) && (AllRestored(pods0, flags0, task.slots - task.able) ==> ok' == ok)
    {
      StillStored(pods0, flags0, store.pods, Flags(), task.slots, s);
      ghost var pods1, flags1 := store.pods, Flags();
      if s !in task.able && AllRestored(pods0, flags0, task.slots - task.able) {
        StillRestored(pods0, flags0, store.pods, Flags(), task.slots, s);
      }
      var restored, saved := RestoreIfNeeded(s, at, true, task, left);
      OneMoreRestored(pods0, flags0, pods1, flags1, store.pods, Flags(), task.slots, left, s, ok, saved);
      ok' := ok && saved;
    }

    // -------------------------------------------------------------- handlers

    /** The slots of device records, over some pods and for some or every claim. */
    ghost predicate SlotsAre(slots: set<Slot>, pods: set<string>, claim: Option<string>)
      reads store`pods
    {
      forall s :: s in slots <==>
        Stored(store.pods, s) && s.pod in pods && (claim.Some? ==> Rec(store.pods, s).claimUID == claim.value)
    }

    function SlotsOf(pods: set<string>, claim: Option<string>): (slots: set<Slot>)
      reads store`pods
      ensures SlotsAre(slots, pods, claim)
    {
      set p, k | p in pods && p in store.pods && k in store.pods[p].devices
                 && (claim.Some? ==> store.pods[p].devices[k].claimUID == claim.value) :: Slot(p, k)
    }

    /** restorePodHostDevices, for StopPodSandbox and RemovePodSandbox: the sandbox's own namespace counts, else the
        stored one. Without a failed call it restores every NIC that nothing stands in the way of, whatever the others do. */
    method StopPodSandbox(pod: string, sandboxPath: string) returns (ok: bool)
      requires Consistent()
      modifies kernel, store`pods, store`failures, nicOf.Keys
      ensures Consistent() && (ok ==> forall s :: HasNic(store.pods, s) && s.pod == pod ==> State(store.pods, s).restored)
      ensures OnlyThese(old(store.pods), old(Flags()), store.pods, Flags(), old(SlotsOf({pod}, None)))
      ensures old(NeverLost()) ==> (NeverLost() <==> RaisedAreHome(store.pods, nicOf, old(Flags()), Flags(), kernel.links))
      ensures old(Valid() && AllReachable(store.pods, nicOf, kernel.links, SlotsOf({pod}, None), sandboxPath)) ==>
                Valid() && (old(NeverLost()) ==> NeverLost())
      ensures Failures() >= old(Failures())
      ensures old(Valid() && AllReachable(store.pods, nicOf, kernel.links, SlotsOf({pod}, None), sandboxPath)) && Failures() == old(Failures()) ==>
                && AllRestored(store.pods, Flags(), old(AbleSlots(store.pods, nicOf, kernel.links, SlotsOf({pod}, None), sandboxPath, true)))
                && (old(DueAreAble(store.pods, nicOf, Flags(), kernel.links, SlotsOf({pod}, None), sandboxPath, true)) ==> ok)
    {
      var slots := SlotsOf({pod}, None);
      ghost var pods0 := store.pods;
      ok := RestoreAll(slots, sandboxPath, "");
      if ok {
        forall s | HasNic(store.pods, s) && s.pod == pod
          ensures State(store.pods, s).restored
        {
          assert HasNic(pods0, s) && s in slots;
        }
      }
    }

    /** A sandbox that reports no namespace, or the one that is stored, leaves nothing ambiguous. */
    lemma OwnSandboxReachable(pod: string)
      requires Valid() && pod in store.pods
      ensures AllReachable(store.pods, nicOf, kernel.links, SlotsOf({pod}, None), "")
      ensures AllReachable(store.pods, nicOf, kernel.links, SlotsOf({pod}, None), store.pods[pod].netNS)
    {
      forall s | HasNic(store.pods, s) && s.pod == pod
        ensures Path(store.pods, s) != "" ==> ClearAt(store.pods, nicOf, kernel.links, s, Path(store.pods, s))
      {
        OwnPathClear(s);
      }
    }

    /** Synchronize after a restart: the namespaces of running pods are noted, and the NICs of the other pods restored if
        they are in the host namespace, until a record cannot be saved. NICs of running pods are left alone; without a
        failed call it succeeds and restores every other one that nothing stands in the way of. */
    method Synchronize(sandboxes: seq<Sandbox>) returns (ok: bool)
      requires Consistent()
      modifies kernel, store`pods, store`failures, nicOf.Keys
      ensures Consistent() && (old(NeverLost()) ==> (NeverLost() <==> RaisedAreHome(store.pods, nicOf, old(Flags()), Flags(), kernel.links)))
      ensures old(Valid() && UsableInTurn(store.pods, nicOf, kernel.links, sandboxes)) ==> Valid() && (old(NeverLost()) ==> NeverLost())
      ensures SameNics(Noted(old(store.pods), sandboxes), store.pods)
      ensures forall s | HasNic(old(store.pods), s) && Runs(sandboxes, s.pod) ::
                State(old(store.pods), s).restored == old(Flags())[State(old(store.pods), s)]
      ensures Failures() >= old(Failures()) && (Failures() == old(Failures()) ==> ok)
      ensures old(Valid() && UsableInTurn(store.pods, nicOf, kernel.links, sandboxes)) && Failures() == old(Failures()) ==>
                AllRestored(store.pods, Flags(), old(AbleSlots(store.pods, nicOf, kernel.links, Orphans(sandboxes), "", false)))
    {
      NotedSame(store.pods, sandboxes);
      ghost var pods := store.pods;
      var active := NoteSandboxes(sandboxes);
      var orphans := SlotsOf(store.pods.Keys - active, None);
      AbleAreAwaited(store.pods, nicOf, Flags(), kernel.links, orphans, "", false, "");
      NotedAsAble(pods, store.pods, nicOf, kernel.links, orphans);
      ghost var able := AbleSlots(store.pods, nicOf, kernel.links, orphans, "", false);
      ok := RestoreOrphans(orphans, Task(orphans, able, "", false, ""));
    }

    /** The slots of the pods that do not run. */
    ghost function Orphans(sandboxes: seq<Sandbox>): set<Slot>
      reads store`pods
    {
      set s | s in SlotsOf(store.pods.Keys, None) && !Runs(sandboxes, s.pod)
    }

    method NoteSandboxes(sandboxes: seq<Sandbox>) returns (active: set<string>)
      requires Consistent()
      modifies store`pods, store`failures
      ensures Consistent() && store.pods == Noted(old(store.pods), sandboxes) && Failures() >= old(Failures())
      ensures forall p :: p in active <==> Runs(sandboxes, p)
      ensures old(NeverLost()) ==> NeverLost()
      ensures old(Valid() && UsableInTurn(store.pods, nicOf, kernel.links, sandboxes)) ==> Valid()
    {
      active := {};
      ghost var clear := Valid() && UsableInTurn(store.pods, nicOf, kernel.links, sandboxes);
      for i := 0 to |sandboxes|
        invariant Consistent() && (old(NeverLost()) ==> NeverLost()) && Failures() >= old(Failures())
        invariant clear ==> Valid() && UsableInTurn(store.pods, nicOf, kernel.links, sandboxes[i..])
        invariant Noted(store.pods, sandboxes[i..]) == Noted(old(store.pods), sandboxes)
        invariant active == set j | 0 <= j < i :: sandboxes[j].pod
      {
        active := active + {sandboxes[i].pod};
        if sandboxes[i].path != "" {
          var ignored := EnterNamespace(sandboxes[i].pod, sandboxes[i].path);
        }
      }
    }

    method RestoreOrphans(slots: set<Slot>, ghost task: Task) returns (ok: bool)
      requires Consistent() && forall s :: s in slots ==> Stored(store.pods, s)
      requires task.slots == slots && task.able <= slots && task.at == "" && !task.searchPods
      modifies kernel, store`pods, store`failures, nicOf.Keys
      ensures Consistent() && nicOf == old(nicOf)
      ensures old(NeverLost()) ==> (NeverLost() <==> RaisedAreHome(store.pods, nicOf, old(Flags()), Flags(), kernel.links))
      ensures old(Valid()) ==> Valid() && (old(NeverLost()) ==> NeverLost())
      ensures OnlyThese(old(store.pods), old(Flags()), store.pods, Flags(), slots)
      ensures Failures() >= old(Failures()) && (Failures() == old(Failures()) ==> ok)
      ensures old(Valid() && Hopeful(task, slots)) && Failures() == old(Failures()) ==> Hopeful(task, {})
    {
      ok := true;
      var left := slots;
      ghost var pods0, flags0, hopeful := store.pods, Flags(), Valid() && Hopeful(task, slots);
      while left != {} && ok
        invariant left <= slots && Consistent() && nicOf == old(nicOf) && OnlyHomeward(old(kernel.links), kernel.links)
        invariant OnlyThese(pods0, flags0, store.pods, Flags(), slots)
        invariant old(Valid()) ==> Plain(task) && (old(NeverLost()) ==> NeverLost())
        invariant Failures() >= old(Failures()) && (Failures() == old(Failures()) ==> ok)
        invariant hopeful && Failures() == old(Failures()) ==> Hopeful(task, left)
        decreases left
      {
        var s :| s in left;
        StillStored(pods0, flags0, store.pods, Flags(), slots, s);
        ghost var pods1, flags1 := store.pods, Flags();
        var restored, saved := RestoreIfNeeded(s, "", false, task, left);
        OneMoreRestored(pods0, flags0, pods1, flags1, store.pods, Flags(), slots, slots, s, false, false);
        ok, left := !restored || saved, left - {s};
      }
      if old(NeverLost()) {
        PromiseAfterMany(pods0, store.pods, nicOf, flags0, Flags(), nics, old(kernel.links), kernel.links);
      }
    }

    /** restoreClaimHostDevices: on success every NIC of the claim is home, and success or not, where the claim's
        NICs will end up does not change. Where nothing is ambiguous and no call fails, it restores every NIC that nothing
        stands in the way of. */
    method RestoreClaim(claim: string) returns (ok: bool)
      requires Consistent()
      modifies kernel, store`pods, store`failures, nicOf.Keys
      ensures Consistent() && nicOf == old(nicOf) && (ok ==> ClaimHome(claim))
      ensures old(kernel.undeleted) ==> kernel.undeleted
      ensures old(NeverLost()) ==> (NeverLost() <==> RaisedAreHome(store.pods, nicOf, old(Flags()), Flags(), kernel.links))
      ensures old(Valid()) ==> Valid() && SameDestination(claim) && (old(NeverLost()) ==> NeverLost())
      ensures Failures() >= old(Failures())
      ensures old(Valid()) && Failures() == old(Failures()) ==>
                AllRestored(store.pods, Flags(), old(AbleSlots(store.pods, nicOf, kernel.links, ClaimSlots(claim), "", true)))
      ensures old(Valid() && ClaimAble(claim)) && Failures() == old(Failures()) ==> ok
    {
      var slots := ClaimSlots(claim);
      ghost var pods0, flags0 := store.pods, Flags();
      ok := RestoreAll(slots, "", claim);
      if ok {
        forall s | HasNic(store.pods, s) && Rec(store.pods, s).claimUID == claim
          ensures State(store.pods, s).restored
        {
          assert HasNic(pods0, s) && Rec(pods0, s).claimUID == claim;
          assert s in slots;
        }
      }
    }

    function ClaimSlots(claim: string): set<Slot>
      reads store`pods
    {
      SlotsOf(store.pods.Keys, Some(claim))
    }

    /** Nothing stands in the way of restoring the claim's NICs. */
    ghost predicate ClaimAble(claim: string)
      reads this`nicOf, kernel`links, store`pods, nicOf.Keys
    {
      DueAreAble(store.pods, nicOf, Flags(), kernel.links, ClaimSlots(claim), "", true)
    }

    /** Every record of the claim that holds a NIC says it is restored. */
    ghost predicate ClaimHome(claim: string)
      reads this`nicOf, kernel`links, kernel`undeleted, store`pods, nicOf.Keys
    {
      forall s :: HasNic(store.pods, s) && Rec(store.pods, s).claimUID == claim && State(store.pods, s) in nicOf ==> State(store.pods, s).restored
    }

    /** store.DeleteClaim, reached only when every record of the claim says restored: the promise survives the loss of its records. */
    method DropClaim(claim: string) returns (ok: bool)
      requires Consistent() && ClaimHome(claim)
      modifies store
      ensures Failures() == old(Failures()) + (if ok then 0 else 1)
      ensures Consistent() && store.pods == WithoutClaim(old(store.pods), claim) && store.ips == old(store.ips) - {claim}
      ensures old(NeverLost()) ==> NeverLost()
      ensures old(Valid()) ==> Valid()
    {
      ghost var pods := store.pods;
      ok := store.DeleteClaim(claim);
      DroppedRecords(pods, claim);
      if old(NeverLost()) {
        forall i | i in nics && kernel.links[i].ns != Host
          ensures Remembered(store.pods, nicOf, Flags(), i)
        {
          DropKeepsMemory(pods, claim, nicOf, Flags(), i);
        }
      }
    }

    // -------------------------------------------------------------- preparing

    /** What the cluster guarantees of a NIC it allocates: nobody else has it, and the claim's own record is the only
        one a prepare replaces. */
    ghost predicate Allocated(pod: string, key: string, hostName: string, cfg: DeviceConfig)
      requires Consistent()
      reads this`nicOf, kernel`links, store`pods
    {
      && (HasNic(store.pods, Slot(pod, key)) ==> Rec(store.pods, Slot(pod, key)).claimUID == cfg.claimUID)
      && (forall i :: i in kernel.links && kernel.links[i].ns == Host && kernel.links[i].name == hostName ==>
            i in nics && forall t :: HasNic(store.pods, t) && t != Slot(pod, key) ==> nicOf[State(store.pods, t)] != i)
    }

    /** The NIC's hardware address is its own, and in a pod that is already running no NIC asks for the original name
        of another. */
    ghost predicate Distinguished(pod: string, key: string, hostName: string, cfg: DeviceConfig)
      requires Consistent()
      reads this`nicOf, kernel`links, store`pods
    {
      && (forall i :: i in kernel.links && kernel.links[i].ns == Host && kernel.links[i].name == hostName && kernel.links[i].mac != "" ==>
            forall j :: j in kernel.links && kernel.links[j].mac == kernel.links[i].mac ==> j == i)
      && (forall t :: HasNic(store.pods, t) && t != Slot(pod, key) && Shared(Path(store.pods, t), PodAt(store.pods, pod).netNS) ==>
            Rec(store.pods, t).interfaceName != hostName && State(store.pods, t).originalName != cfg.interfaceName)
    }

    /** The host-device part of prepareClaim: a record that exists is kept, otherwise a snapshot is taken of a link that
        may be lent. On success the record is there; it fails only if a call does, or the link is missing or unsafe. */
    method PrepareHostDevice(pod: string, key: string, hostName: string, cfg: DeviceConfig, safe: bool) returns (ok: bool)
      requires Consistent() && Allocated(pod, key, hostName, cfg)
      requires cfg.netType == HOST_DEVICE && cfg.interfaceName != "" && cfg.hostDevice == null && cfg.attachedIf == ""
      modifies this`nicOf, store`pods, store`failures, kernel`failures
      ensures Consistent() && (old(NeverLost()) ==> NeverLost())
      ensures old(HasNic(store.pods, Slot(pod, key))) ==>
                && Failures() == old(Failures()) + (if ok then 0 else 1) && nicOf == old(nicOf)
                && store.pods == WithDevice(old(store.pods), pod, key, old(Rec(store.pods, Slot(pod, key))).(lifecycle := "Prepared"))
      ensures !old(HasNic(store.pods, Slot(pod, key))) ==> SnapshotTaken(pod, key, hostName, cfg, safe, ok)
      ensures old(Valid() && Distinguished(pod, key, hostName, cfg)) ==> Valid()
    {
      if pod in store.pods && key in store.pods[pod].devices
         && store.pods[pod].devices[key].claimUID == cfg.claimUID && store.pods[pod].devices[key].hostDevice != null {
        ok := KeepRecord(Slot(pod, key));
      } else {
        ok := TakeSnapshot(pod, key, hostName, cfg, safe);
      }
    }

    /** What comes of a prepare without an earlier record. */
    twostate predicate SnapshotTaken(pod: string, key: string, hostName: string, cfg: DeviceConfig, safe: bool, ok: bool)
      reads this`nicOf, this`unreported, kernel`links, kernel`failures, store`pods, store`failures, nicOf.Keys
    {
      var s := Slot(pod, key);
      && Failures() >= old(Failures())
      && (ok || store.pods != old(store.pods) ==>
            && safe && Snapped(store.pods, nicOf, kernel.links, s, hostName, cfg) && !State(store.pods, s).restored
            && store.pods == WithDevice(old(store.pods), pod, key, Rec(store.pods, s)))
      && (Failures() == old(Failures()) ==>
            (ok <==> safe && exists i :: i in kernel.links && kernel.links[i].ns == Host && kernel.links[i].name == hostName))
    }

    method TakeSnapshot(pod: string, key: string, hostName: string, cfg: DeviceConfig, safe: bool) returns (ok: bool)
      requires Consistent() && Allocated(pod, key, hostName, cfg) && !HasNic(store.pods, Slot(pod, key))
      requires cfg.netType == HOST_DEVICE && cfg.interfaceName != "" && cfg.hostDevice == null && cfg.attachedIf == ""
      modifies this`nicOf, store`pods, store`failures, kernel`failures
      ensures Consistent() && (old(NeverLost()) ==> NeverLost())
      ensures SnapshotTaken(pod, key, hostName, cfg, safe, ok)
      ensures old(Valid() && Distinguished(pod, key, hostName, cfg)) ==> Valid()
    {
      var h, nic := SnapshotNamed(hostName, safe);
      if h == null {
        return false;
      }
      ok := StoreNew(pod, key, hostName, cfg, h, nic);
    }

    method StoreNew(pod: string, key: string, hostName: string, cfg: DeviceConfig, h: HostDeviceState, nic: nat) returns (ok: bool)
      requires Consistent() && Allocated(pod, key, hostName, cfg) && !HasNic(store.pods, Slot(pod, key))
      requires cfg.netType == HOST_DEVICE && cfg.interfaceName != "" && cfg.attachedIf == "" && h !in nicOf && WellSaved(h)
      requires nic in kernel.links && kernel.links[nic].ns == Host && kernel.links[nic].name == hostName == h.originalName
      requires SavedLink(kernel.links[nic], h) == kernel.links[nic]
      requires h.originalMAC == kernel.links[nic].mac && h.originalMTU == kernel.links[nic].mtu
      modifies this`nicOf, store`pods, store`failures
      ensures Consistent() && (old(NeverLost()) ==> NeverLost())
      ensures Failures() == old(Failures()) + (if ok then 0 else 1)
      ensures Snapped(store.pods, nicOf, kernel.links, Slot(pod, key), hostName, cfg) && State(store.pods, Slot(pod, key)) == h
      ensures store.pods == WithDevice(old(store.pods), pod, key, Rec(store.pods, Slot(pod, key)))
      ensures old(Valid() && Distinguished(pod, key, hostName, cfg)) ==> Valid()
    {
      var made := cfg.(hostDevice := h, lifecycle := "Prepared");
      if Valid() && Distinguished(pod, key, hostName, cfg) {
        DistinguishedFits(pod, key, hostName, cfg, made, nic);
      }
      StoredIsSnapped(store.pods, nicOf, kernel.links, Slot(pod, key), cfg, h, nic);
      ok := StoreSnapshot(Slot(pod, key), made, nic);
    }

    method SnapshotNamed(hostName: string, safe: bool) returns (h: HostDeviceState?, nic: nat)
      requires kernel.Valid()
      modifies kernel`failures
      ensures kernel.failures >= old(kernel.failures)
      ensures h != null ==>
                && safe && fresh(h) && !h.restored && WellSaved(h) && nic in kernel.links && kernel.links[nic].ns == Host
                && kernel.links[nic].name == hostName == h.originalName && SavedLink(kernel.links[nic], h) == kernel.links[nic]
                && h.originalMAC == kernel.links[nic].mac && h.originalMTU == kernel.links[nic].mtu
      ensures kernel.failures == old(kernel.failures) ==>
                (h != null <==> safe && exists i :: i in kernel.links && kernel.links[i].ns == Host && kernel.links[i].name == hostName)
    {
      h, nic := null, 0;
      var found := kernel.LinkByName(Host, hostName);
      if found.Some? {
        nic := found.value;
        h := SnapshotHostDevice(kernel, nic);
        if !safe {
          h := null;
        }
      }
    }

    lemma DistinguishedFits(pod: string, key: string, hostName: string, cfg: DeviceConfig, made: DeviceConfig, nic: nat)
      requires Valid() && Allocated(pod, key, hostName, cfg) && Distinguished(pod, key, hostName, cfg)
      requires nic in kernel.links && kernel.links[nic].ns == Host && kernel.links[nic].name == hostName && made.hostDevice != null
      requires made.hostDevice.originalName == hostName && made.hostDevice.originalMAC == kernel.links[nic].mac
      requires made.interfaceName == cfg.interfaceName && made.attachedIf == ""
      ensures SnapshotFits(store.pods, nicOf, kernel.links, Slot(pod, key), made, nic)
    {
    }

    method KeepRecord(s: Slot) returns (ok: bool)
      requires Consistent() && HasNic(store.pods, s)
      modifies store`pods, store`failures
      ensures Consistent() && store.pods == WithDevice(old(store.pods), s.pod, s.key, old(Rec(store.pods, s)).(lifecycle := "Prepared"))
      ensures Failures() == old(Failures()) + (if ok then 0 else 1)
      ensures (old(NeverLost()) ==> NeverLost()) && (old(Valid()) ==> Valid())
    {
      ghost var pods := store.pods;
      var kept := store.pods[s.pod].devices[s.key].(lifecycle := "Prepared");
      ok := store.SetDevice(s.pod, s.key, kept);
      WithDeviceOnlyRecord(pods, s, kept);
      RecordsStayMade(pods, store.pods, nicOf, nics, s);
      if old(NeverLost()) {
        SameRecordsRemember(pods, store.pods, nicOf, Flags(), nics, kernel.links, s);
      }
      if old(Valid()) {
        RecordsStay(pods, store.pods, nicOf, nics, s);
        RestoreStaysClear(pods, store.pods, nicOf, nics, kernel.links, kernel.links, s, "");
      }
    }

    method StoreSnapshot(s: Slot, made: DeviceConfig, ghost nic: nat) returns (ok: bool)
      requires Consistent() && !HasNic(store.pods, s) && nic in nics && made.hostDevice != null && made.hostDevice !in nicOf
      requires forall t :: HasNic(store.pods, t) ==> nicOf[State(store.pods, t)] != nic
      requires WellSaved(made.hostDevice) && made.netType == HOST_DEVICE && NamedAsAsked(made)
      modifies this`nicOf, store`pods, store`failures
      ensures Consistent() && (old(NeverLost()) ==> NeverLost())
      ensures store.pods == WithDevice(old(store.pods), s.pod, s.key, made) && nicOf == old(nicOf)[made.hostDevice := nic]
      ensures Failures() == old(Failures()) + (if ok then 0 else 1)
      ensures old(Valid() && SnapshotFits(store.pods, nicOf, kernel.links, s, made, nic)) ==> Valid()
    {
      ghost var pods, was, flags := store.pods, nicOf, Flags();
      nicOf := nicOf[made.hostDevice := nic];
      ok := store.SetDevice(s.pod, s.key, made);
      SnapshotIsMade(pods, was, nics, s, made, nic);
      if old(NeverLost()) {
        SnapshotKeepsMemory(pods, was, flags, s, made, nic, Flags(), nics, kernel.links);
      }
      if old(Valid()) && SnapshotFits(pods, was, kernel.links, s, made, nic) {
        SnapshotIsGood(pods, was, kernel.links, s, made, nic);
      }
    }

    // -------------------------------------------------------------- attaching

    /** The record is not attached, its pod's namespace is known, and nothing but the NIC answers to it. */
    ghost predicate ToAttach(s: Slot)
      requires Consistent()
      reads this`nicOf, kernel`links, store`pods
    {
      && HasNic(store.pods, s) && Rec(store.pods, s).attachedIf == "" && Path(store.pods, s) != ""
      && OnlyNicAnswers(s, Path(store.pods, s))
    }

    /** One round of the loop in RunPodSandbox: attach, and store the record. It breaks the promise exactly when the
        attach fails after the move although the record said Restored on entry. When nothing stands in the way and no call
        fails, it succeeds. */
    method AttachSlot(s: Slot) returns (ok: bool, moved: bool, saved: bool)
      requires Consistent() && ToAttach(s)
      modifies kernel, store`pods, store`failures, State(store.pods, s)
      ensures Consistent() && nicOf == old(nicOf) && OnlyRecord(old(store.pods), store.pods, s) && OnlyAttached(s, ok, moved)
      ensures old(NeverLost()) ==> (NeverLost() <==> !(moved && !ok && old(State(store.pods, s).restored)))
      ensures old(Valid() && NameGuarded(store.pods, nicOf, kernel.links, s)) ==> Valid()
      ensures Failures() >= old(Failures()) && (saved ==> ok) && (ok && Failures() == old(Failures()) ==> saved)
      ensures Failures() == old(Failures()) && old(ReadyAlone(s)) ==> ok && saved
    {
      ghost var pods, flags, before := store.pods, Flags(), kernel.links;
      ok, moved, saved := AttachRecord(s);
      RecordsStayMade(pods, store.pods, nicOf, nics, s);
      if old(NeverLost()) {
        PromiseAfterOne(pods, store.pods, nicOf, flags, Flags(), nics, before, kernel.links, s);
      }
      if old(Valid()) && NameGuarded(pods, nicOf, before, s) {
        AttachStaysClear(pods, store.pods, nicOf, nics, before, kernel.links, s);
      }
    }

    ghost predicate ReadyAlone(s: Slot)
      requires Consistent() && HasNic(store.pods, s)
      reads this`nicOf, kernel`links, store`pods
    {
      Attachable(kernel.links, Path(store.pods, s), Rec(store.pods, s), nicOf[State(store.pods, s)])
    }

    method AttachRecord(s: Slot) returns (ok: bool, moved: bool, saved: bool)
      requires Consistent() && ToAttach(s)
      modifies kernel, store`pods, store`failures, State(store.pods, s)
      ensures kernel.Valid() && OnlyRecord(old(store.pods), store.pods, s) && OnlyAttached(s, ok, moved)
      ensures Failures() >= old(Failures()) && (saved ==> ok) && (ok && Failures() == old(Failures()) ==> saved)
      ensures Failures() == old(Failures()) && old(ReadyAlone(s)) ==> ok
    {
      ghost var pods := store.pods;
      var cfg := store.pods[s.pod].devices[s.key];
      var cfg';
      saved := false;
      ok, cfg', moved := AttachHostDevice(kernel, store.pods[s.pod].netNS, cfg, nicOf[cfg.hostDevice]);
      if ok {
        var attached := cfg'.(attachedIf := cfg.interfaceName, lifecycle := "Attached");
        saved := store.SetDevice(s.pod, s.key, attached);
        WithDeviceOnlyRecord(pods, s, attached);
      }
    }

    /** What attaching the record in slot `s` does to its NIC, its flag and its attachment. */
    twostate predicate OnlyAttached(s: Slot, ok: bool, moved: bool)
      requires HasNic(old(store.pods), s) && HasNic(store.pods, s) && State(old(store.pods), s) in old(nicOf)
      requires old(nicOf)[State(old(store.pods), s)] in old(kernel.links)
      reads this`nicOf, kernel`links, store`pods, nicOf.Keys
    {
      var cfg, path := Rec(old(store.pods), s), Path(old(store.pods), s);
      var nic := old(nicOf)[cfg.hostDevice];
      var before, after := old(kernel.links), kernel.links;
      && nicOf == old(nicOf) && OnlyChanges(before, after, nic) && AttachTouches(before[nic], after[nic], path, cfg)
      && store.pods == (if ok then WithDevice(old(store.pods), s.pod, s.key, Rec(store.pods, s)) else old(store.pods))
      && (ok ==> Placed(cfg, Rec(store.pods, s), before[nic], after[nic], path, cfg.hostDevice.restored))
      && (!moved ==> !ok && after[nic].ns == before[nic].ns && cfg.hostDevice.restored == old(cfg.hostDevice.restored))
      && (moved && !ok ==> (after[nic].ns != Host && cfg.hostDevice.restored <==> old(cfg.hostDevice.restored)))
    }

    /** Records of the pod stay unambiguous when its namespace is at this path. */
    ghost predicate Usable(pod: string, path: string)
      reads this`nicOf, kernel`links, store`pods
    {
      Unambiguous(WithNetNS(store.pods, pod, path), nicOf, kernel.links)
    }

    /** store.SetNetNS, when a sandbox starts and when Synchronize sees it. */
    method EnterNamespace(pod: string, path: string) returns (ok: bool)
      requires Consistent()
      modifies store`pods, store`failures
      ensures Consistent() && store.pods == WithNetNS(old(store.pods), pod, path)
      ensures Failures() == old(Failures()) + (if ok then 0 else 1)
      ensures old(NeverLost()) ==> NeverLost()
      ensures old(Usable(pod, path)) ==> Valid()
    {
      ghost var pods := store.pods;
      ok := store.SetNetNS(pod, path);
      NetNSSame(pods, pod, path);
      if old(NeverLost()) {
        NetNSKeepsMemory(pods, pod, path, nicOf, Flags(), nics, kernel.links);
      }
    }

    /** A call to the cluster: reading the pod, reporting a status, or what has to be done for devices of other types. */
    method Report() returns (ok: bool)
      modifies this`unreported
      ensures unreported == old(unreported) + (if ok then 0 else 1)
    {
      ok := *;
      if !ok {
        unreported := unreported + 1;
      }
    }

    /** RunPodSandbox: attaches the pod's NICs until something fails. On success every NIC of the pod that was not attached
        is in the pod as asked for, and the others are as they were; success or not, nothing happens to the NICs of other pods.
        It succeeds when nothing stands in the way and no call fails. The promise is broken exactly when the failing
        attach had moved a NIC whose record said Restored on entry (see AttachSlot). */
    method RunPodSandbox(pod: string, path: string, sameUid: bool) returns (ok: bool, lost: bool)
      requires Consistent() && StandClear(WithNetNS(store.pods, pod, path), nicOf, kernel.links, pod)
      modifies kernel, store`pods, store`failures, this`unreported, nicOf.Keys
      ensures Consistent() && nicOf == old(nicOf) && (lost ==> !ok) && (old(NeverLost()) ==> (NeverLost() <==> !lost))
      ensures old(Valid() && Usable(pod, path) && NamesGuarded(WithNetNS(store.pods, pod, path), nicOf, kernel.links, pod)) ==> Valid()
      ensures ok && pod in old(store.pods) ==> sameUid && path != ""
      ensures if ok then Attaching(old(Now()), Now(), nicOf, old(SlotsOf({pod}, None)), {}, path)
              else Attaching(old(Now()), Now(), nicOf, {}, old(SlotsOf({pod}, None)), path)
      ensures Failures() >= old(Failures())
      ensures Failures() == old(Failures()) && sameUid && path != ""
              && old(Ready(WithNetNS(store.pods, pod, path), nicOf, kernel.links, SlotsOf({pod}, None))) ==>
                ok
    {
      ghost var v0, slots0 := Now(), SlotsOf({pod}, None);
      AttachingBegins(v0, nicOf, nics, slots0, path);
      if pod !in store.pods {
        assert slots0 == {};
        return true, false;
      }
      if path == "" {
        return false, false;
      }
      ok, lost := AttachPod(pod, path, sameUid);
      if ok {
        ghost var v := Now();
        AttachingLoosely(v0, v, nicOf, slots0, path);
        ok := Report();
        assert Now() == v;
      }
    }

    method AttachPod(pod: string, path: string, sameUid: bool) returns (ok: bool, lost: bool)
      requires Consistent() && StandClear(WithNetNS(store.pods, pod, path), nicOf, kernel.links, pod) && pod in store.pods && path != ""
      modifies kernel, store`pods, store`failures, this`unreported, nicOf.Keys
      ensures Consistent() && nicOf == old(nicOf) && (lost ==> !ok) && (old(NeverLost()) ==> (NeverLost() <==> !lost))
      ensures old(Valid() && Usable(pod, path) && NamesGuarded(WithNetNS(store.pods, pod, path), nicOf, kernel.links, pod)) ==> Valid()
      ensures ok ==> sameUid
      ensures if ok then Attaching(old(Now()), Now(), nicOf, old(SlotsOf({pod}, None)), {}, path)
              else Attaching(old(Now()), Now(), nicOf, {}, old(SlotsOf({pod}, None)), path)
      ensures Failures() >= old(Failures())
      ensures Failures() == old(Failures()) && sameUid
              && old(Ready(WithNetNS(store.pods, pod, path), nicOf, kernel.links, SlotsOf({pod}, None))) ==>
                ok
    {
      lost := false;
      var slots := SlotsOf({pod}, None);
      ghost var v0 := Now();
      ok := EnterNamespace(pod, path);
      ghost var v1 := Now();
      NetNSSame(v0.pods, pod, path);
      AttachingBegins(v1, nicOf, nics, slots, path);
      AttachingNoted(v0, v1, v1, nicOf, {}, slots, path);
      if !ok {
        return;
      }
      ok := Report();
      assert Now() == v1;
      if !ok || !sameUid {
        return false, false;
      }
      ok, lost := AttachEach(pod, path, slots);
      AttachingNoted(v0, v1, Now(), nicOf, if ok then slots else {}, if ok then {} else slots, path);
    }

    ghost function Now(): View
      reads this`nicOf, kernel`links, store`pods, nicOf.Keys
    {
      View(store.pods, Flags(), kernel.links)
    }

    method AttachEach(pod: string, ghost path: string, slots: set<Slot>) returns (ok: bool, lost: bool)
      requires Consistent() && forall s :: s in slots ==> Stored(store.pods, s) && s.pod == pod
      requires pod in store.pods && store.pods[pod].netNS == path != "" && StandClear(store.pods, nicOf, kernel.links, pod)
      modifies kernel, store`pods, store`failures, this`unreported, nicOf.Keys
      ensures Consistent() && nicOf == old(nicOf) && (lost ==> !ok) && (old(NeverLost()) ==> (NeverLost() <==> !lost))
      ensures old(Valid() && NamesGuarded(store.pods, nicOf, kernel.links, pod)) ==> Valid()
      ensures if ok then Attaching(old(Now()), Now(), nicOf, slots, {}, path) else Attaching(old(Now()), Now(), nicOf, {}, slots, path)
      ensures Failures() >= old(Failures())
      ensures Failures() == old(Failures()) && old(Ready(store.pods, nicOf, kernel.links, slots)) ==> ok
    {
      ok, lost := true, false;
      var left := slots;
      ghost var v0, ready := Now(), Ready(store.pods, nicOf, kernel.links, slots);
      AttachingBegins(v0, nicOf, nics, {}, path);
      ghost var clear := Valid() && NamesGuarded(store.pods, nicOf, kernel.links, pod);
      assert slots - left == {};
      while left != {}
        invariant ok && !lost && Consistent() && nicOf == old(nicOf) && left <= slots && (old(NeverLost()) ==> NeverLost())
        invariant SameShape(v0.pods, store.pods) && StandClear(store.pods, nicOf, kernel.links, pod)
        invariant clear ==> Valid() && NamesGuarded(store.pods, nicOf, kernel.links, pod)
        invariant Attaching(v0, Now(), nicOf, slots - left, {}, path)
        invariant Failures() >= old(Failures()) && (ready && Failures() == old(Failures()) ==> Ready(store.pods, nicOf, kernel.links, left))
        decreases left
      {
        var s :| s in left;
        ok, lost := AttachNext(s, path, left, slots, v0);
        left := left - {s};
        if !ok {
          return;
        }
      }
      assert slots - left == slots;
    }

    /** One round of that loop. */
    method AttachNext(s: Slot, ghost path: string, ghost left: set<Slot>, ghost slots: set<Slot>, ghost v0: View)
      returns (ok: bool, lost: bool)
      requires Consistent() && Stored(store.pods, s) && Path(store.pods, s) == path != "" && StandClear(store.pods, nicOf, kernel.links, s.pod)
      requires s in left && left <= slots && forall t :: t in left ==> t.pod == s.pod
      requires Attaching(v0, Now(), nicOf, slots - left, {}, path)
      modifies kernel, store`pods, store`failures, this`unreported, nicOf.Keys
      ensures Consistent() && nicOf == old(nicOf) && (lost ==> !ok) && (old(NeverLost()) ==> (NeverLost() <==> !lost))
      ensures SameShape(old(store.pods), store.pods) && (ok ==> StandClear(store.pods, nicOf, kernel.links, s.pod))
      ensures old(Valid() && NamesGuarded(store.pods, nicOf, kernel.links, s.pod)) ==>
                Valid() && (ok ==> NamesGuarded(store.pods, nicOf, kernel.links, s.pod))
      ensures if ok then Attaching(v0, Now(), nicOf, slots - (left - {s}), {}, path) else Attaching(v0, Now(), nicOf, {}, slots, path)
      ensures Failures() >= old(Failures())
      ensures old(Ready(store.pods, nicOf, kernel.links, left)) && Failures() == old(Failures()) ==>
                ok && Ready(store.pods, nicOf, kernel.links, left - {s})
    {
      OneFewer(slots, left, s);
      ok, lost := AttachIfNeeded(s, path, left, slots - left, slots, v0);
      if ok {
        ghost var v := Now();
        ok := Report();
        assert Now() == v;
      }
    }

    method AttachIfNeeded(s: Slot, ghost path: string, ghost left: set<Slot>, ghost done: set<Slot>, ghost slots: set<Slot>, ghost v0: View)
      returns (ok: bool, lost: bool)
      requires Consistent() && Stored(store.pods, s) && Path(store.pods, s) == path != "" && StandClear(store.pods, nicOf, kernel.links, s.pod)
      requires s in left && s !in done && done <= slots && left <= slots && forall t :: t in left ==> t.pod == s.pod
      requires Attaching(v0, Now(), nicOf, done, {}, path)
      modifies kernel, store`pods, store`failures, nicOf.Keys
      ensures Consistent() && nicOf == old(nicOf) && (lost ==> !ok) && (old(NeverLost()) ==> (NeverLost() <==> !lost))
      ensures SameShape(old(store.pods), store.pods) && (ok ==> StandClear(store.pods, nicOf, kernel.links, s.pod))
      ensures old(Valid() && NamesGuarded(store.pods, nicOf, kernel.links, s.pod)) ==>
                Valid() && (ok ==> NamesGuarded(store.pods, nicOf, kernel.links, s.pod))
      ensures if ok then Attaching(v0, Now(), nicOf, done + {s}, {}, path) else Attaching(v0, Now(), nicOf, {}, slots, path)
      ensures Failures() >= old(Failures())
      ensures old(Ready(store.pods, nicOf, kernel.links, left)) && Failures() == old(Failures()) ==>
                ok && Ready(store.pods, nicOf, kernel.links, left - {s})
    {
      ok, lost := true, false;
      var cfg := store.pods[s.pod].devices[s.key];
      AttachedAlready(v0, Now(), nicOf, done, slots, s, path);
      if Ready(store.pods, nicOf, kernel.links, left) {
        FewerReady(store.pods, nicOf, kernel.links, left, s);
      }
      if cfg.netType == HOST_DEVICE && cfg.attachedIf == "" {
        if cfg.hostDevice == null {
          return false, false;
        }
        ok, lost := AttachHeld(s, path, left, done, slots, v0);
      }
    }

    method AttachHeld(s: Slot, ghost path: string, ghost left: set<Slot>, ghost done: set<Slot>, ghost slots: set<Slot>, ghost v0: View)
      returns (ok: bool, lost: bool)
      requires Consistent() && ToAttach(s) && Path(store.pods, s) == path && StandClear(store.pods, nicOf, kernel.links, s.pod)
      requires s in left && s !in done && done <= slots && left <= slots && forall t :: t in left ==> t.pod == s.pod
      requires Attaching(v0, Now(), nicOf, done, {}, path)
      modifies kernel, store`pods, store`failures, State(store.pods, s)
      ensures Consistent() && nicOf == old(nicOf) && (lost ==> !ok) && (old(NeverLost()) ==> (NeverLost() <==> !lost))
      ensures SameShape(old(store.pods), store.pods) && (ok ==> StandClear(store.pods, nicOf, kernel.links, s.pod))
      ensures old(Valid() && NamesGuarded(store.pods, nicOf, kernel.links, s.pod)) ==>
                Valid() && (ok ==> NamesGuarded(store.pods, nicOf, kernel.links, s.pod))
      ensures if ok then Attaching(v0, Now(), nicOf, done + {s}, {}, path) else Attaching(v0, Now(), nicOf, {}, slots, path)
      ensures Failures() >= old(Failures())
      ensures old(Ready(store.pods, nicOf, kernel.links, left)) && Failures() == old(Failures()) ==>
                ok && Ready(store.pods, nicOf, kernel.links, left - {s})
    {
      var restoredBefore, moved := store.pods[s.pod].devices[s.key].hostDevice.restored, false;
      var attached;
      attached, moved, ok := AttachSlot(s);
      lost := moved && !attached && restoredBefore;
      AttachGoesOn(Attached(s, left, attached, moved, path, done, slots, v0));
    }

    twostate lemma AttachIsOnly(z: Attached)
      requires old(Consistent()) && Consistent() && HasNic(old(store.pods), z.slot) && OnlyRecord(old(store.pods), store.pods, z.slot)
      requires OnlyAttached(z.slot, z.ok, z.moved) && forall h :: h in nicOf && h != State(old(store.pods), z.slot) ==> h.restored == old(h.restored)
      ensures Attaching(old(Now()), Now(), nicOf, {}, {z.slot}, Path(old(store.pods), z.slot))
      ensures z.ok ==> Attaching(old(Now()), Now(), nicOf, {z.slot}, {}, Path(old(store.pods), z.slot))
      ensures SameShape(old(store.pods), store.pods)
    {
      WithDeviceSameShape(old(store.pods), z.slot, Rec(store.pods, z.slot));
      forall t | HasNic(store.pods, t) && t != z.slot
        ensures nicOf[State(store.pods, t)] != nicOf[State(store.pods, z.slot)]
      {
      }
    }

    twostate lemma AttachGoesOn(z: Attached)
      requires old(Consistent()) && Consistent() && HasNic(old(store.pods), z.slot) && OnlyRecord(old(store.pods), store.pods, z.slot)
      requires OnlyAttached(z.slot, z.ok, z.moved) && forall h :: h in nicOf && h != State(old(store.pods), z.slot) ==> h.restored == old(h.restored)
      requires z.path == Path(old(store.pods), z.slot) && z.slot !in z.done && z.slot in z.slots && z.done <= z.slots
      requires Attaching(z.start, old(Now()), nicOf, z.done, {}, z.path)
      requires Unattached(old(store.pods), z.slot) && z.slot in z.left && forall t :: t in z.left ==> t.pod == z.slot.pod
      requires StandClear(old(store.pods), nicOf, old(kernel.links), z.slot.pod)
      ensures SameShape(old(store.pods), store.pods) && Attaching(z.start, Now(), nicOf, {}, z.slots, z.path)
      ensures z.ok ==>
                && Attaching(z.start, Now(), nicOf, z.done + {z.slot}, {}, z.path)
                && StandClear(store.pods, nicOf, kernel.links, z.slot.pod)
                && (NamesGuarded(old(store.pods), nicOf, old(kernel.links), z.slot.pod) ==> NamesGuarded(store.pods, nicOf, kernel.links, z.slot.pod))
                && (Ready(old(store.pods), nicOf, old(kernel.links), z.left) ==> Ready(store.pods, nicOf, kernel.links, z.left - {z.slot}))
    {
      AttachIsOnly(z);
      AttachingElsewhere(z.start, old(Now()), Now(), nicOf, z.done, z.slots, z.slot, z.path);
      if z.ok {
        AttachingOneMore(z.start, old(Now()), Now(), nicOf, z.done, z.slot, z.path);
        AttachedKeeps(z);
      }
    }

    twostate lemma AttachedKeeps(z: Attached)
      requires old(Consistent()) && Consistent() && HasNic(old(store.pods), z.slot) && OnlyRecord(old(store.pods), store.pods, z.slot)
      requires OnlyAttached(z.slot, true, true) && Unattached(old(store.pods), z.slot)
      requires z.slot in z.left && forall t :: t in z.left ==> t.pod == z.slot.pod
      requires StandClear(old(store.pods), nicOf, old(kernel.links), z.slot.pod)
      ensures StandClear(store.pods, nicOf, kernel.links, z.slot.pod)
      ensures NamesGuarded(old(store.pods), nicOf, old(kernel.links), z.slot.pod) ==> NamesGuarded(store.pods, nicOf, kernel.links, z.slot.pod)
      ensures Ready(old(store.pods), nicOf, old(kernel.links), z.left) ==> Ready(store.pods, nicOf, kernel.links, z.left - {z.slot})
    {
      AttachedStandsClear(z.slot);
      if NamesGuarded(old(store.pods), nicOf, old(kernel.links), z.slot.pod) {
        AttachedStaysGuarded(z.slot);
      }
      if Ready(old(store.pods), nicOf, old(kernel.links), z.left) {
        ReadyStays(old(store.pods), store.pods, nicOf, nics, old(kernel.links), kernel.links, z.left, z.slot);
      }
    }

    twostate lemma AttachedStandsClear(s: Slot)
      requires old(Consistent()) && Consistent() && HasNic(old(store.pods), s) && OnlyRecord(old(store.pods), store.pods, s)
      requires OnlyAttached(s, true, true) && StandClear(old(store.pods), nicOf, old(kernel.links), s.pod)
      ensures StandClear(store.pods, nicOf, kernel.links, s.pod)
    {
      forall u | HasNic(store.pods, u) && u.pod == s.pod && Rec(store.pods, u).attachedIf == ""
        ensures Clear(kernel.links, Path(store.pods, u), Rec(store.pods, u), nicOf[State(store.pods, u)])
      {
        assert u != s && Clear(old(kernel.links), Path(store.pods, u), Rec(store.pods, u), nicOf[State(store.pods, u)]);
      }
    }

    twostate lemma AttachedStaysGuarded(s: Slot)
      requires old(Consistent()) && Consistent() && HasNic(old(store.pods), s) && OnlyRecord(old(store.pods), store.pods, s)
      requires OnlyAttached(s, true, true) && NamesGuarded(old(store.pods), nicOf, old(kernel.links), s.pod)
      ensures NamesGuarded(store.pods, nicOf, kernel.links, s.pod)
    {
      forall u | HasNic(store.pods, u) && u.pod == s.pod && Rec(store.pods, u).attachedIf == ""
        ensures NameGuarded(store.pods, nicOf, kernel.links, u)
      {
        assert u != s && NameGuarded(old(store.pods), nicOf, old(kernel.links), u);
        forall t | HasNic(store.pods, t) && t != u && Shared(Path(store.pods, u), Path(store.pods, t))
                   && Rec(store.pods, t).attachedIf == Rec(store.pods, u).interfaceName
          ensures Held(store.pods, nicOf, kernel.links, t)
        {
          if t != s {
            assert nicOf[State(store.pods, t)] != nicOf[State(store.pods, s)];
          }
        }
      }
    }

    // -------------------------------------------------------------- the world outside

    /** Anything may happen to links outside the driver, short of taking a NIC to another pod: pods may change
        MTU, hardware address, addresses and names, namespaces may vanish, other links may come and take names. */
    ghost predicate Tolerable(links': Links)
      requires Consistent()
      reads this`nicOf, kernel`links, store`pods
    {
      && ValidLinks(links') && nics <= links'.Keys
      && forall i :: i in nics ==> links'[i].ns == kernel.links[i].ns || links'[i].ns == Host
    }

    /** Every link was there, keeps its namespace and name, and takes no hardware address that is saved for another NIC. */
    ghost predicate Quiet(links': Links)
      requires Consistent()
      reads this`nicOf, kernel`links, store`pods
    {
      forall i :: i in links' ==>
        && i in kernel.links && links'[i].ns == kernel.links[i].ns && links'[i].name == kernel.links[i].name
        && forall s :: HasNic(store.pods, s) && nicOf[State(store.pods, s)] != i && links'[i].mac != kernel.links[i].mac ==>
             State(store.pods, s).originalMAC != links'[i].mac
    }

    method Disturb(links': Links)
      requires Consistent() && Tolerable(links')
      modifies kernel`links
      ensures Consistent() && kernel.links == links' && (old(NeverLost()) ==> NeverLost())
      ensures old(Valid() && Quiet(links')) ==> Valid()
    {
      ghost var before := kernel.links;
      kernel.links := links';
      if old(Valid() && Quiet(links')) {
        forall s | HasNic(store.pods, s)
          ensures Clear(links', Path(store.pods, s), Rec(store.pods, s), nicOf[State(store.pods, s)])
        {
          assert Clear(before, Path(store.pods, s), Rec(store.pods, s), nicOf[State(store.pods, s)]);
        }
      }
    }

    /** A NIC that is restored and attached again: from then on every failure after the move loses it. */
    method Reattach(s: Slot) returns (ok: bool, moved: bool)
      requires Consistent() && NeverLost() && HasNic(store.pods, s) && !State(store.pods, s).restored
      requires Path(store.pods, s) != "" && OnlyNicAnswers(s, Path(store.pods, s))
      modifies kernel, store`pods, store`failures, State(store.pods, s)
      ensures Consistent() && (NeverLost() <==> !(moved && !ok))
    {
      ghost var cfg, path, links := Rec(store.pods, s), Path(store.pods, s), kernel.links;
      var restored, saved;
      ghost var touched;
      restored, saved, touched := RestoreSlot(s, store.pods[s.pod].netNS);
      if !restored {
        return false, false;
      }
      OwnStaysClear(links, kernel.links, path, cfg, Rec(store.pods, s), nicOf[State(store.pods, s)]);
      ok, moved, saved := AttachSlot(s);
    }
  }
}
