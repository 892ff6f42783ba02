# Linux network DRA driver: verified model

A Dafny model of the stateful cores of a Kubernetes DRA driver that hands Linux network devices to Pods, with
proofs about whole runs of them. `dafny verify dfyconfig.toml` checks everything.

**Addresses of the cluster.** Nodes compete for the addresses of IP pools by creating `IPAllocation` objects under a
name derived from pool and address, and give them back with UID-preconditioned deletes; a controller deletes stale
objects.

- `Text.dfy`, `Ipv4.dfy`, `Pools.dfy`, `Allocations.dfy`: numerals, 32-bit addresses, CIDR blocks, ranges and their
  expansion, the order in which dynamic addresses are tried, allocation objects.
- `Protocol.dfy`: the protocol as a step machine, one API call per step, with any number of nodes, releases and
  controllers interleaved and claims created and deleted in between. A call may fail, and a Create or Delete may take
  effect although its reply is lost. `ProtocolInvariant.dfy` has the inductive invariant, `ProtocolTheorems.dfy` and
  `PoolDiscipline.dfy` the theorems over every run.
- `Api.dfy`, `Ipam.dfy`, `Reconcile.dfy`: the same operations as the loops they are, for one client that nobody
  interferes with. `Refinement.dfy`: what a whole prepare, release or reconcile does then is a run of the step machine.

**Whole NICs.** A host device is snapshotted, moved into a Pod, configured, and brought home.

- `Kernel.dfy`: namespaces, links and netlink operations, each of which may fail. A refusal because a name is taken is
  no failure; the others are counted, so that contracts can say what happens when none fails.
- `HostDevice.dfy`, `RoundTrip.dfy`: snapshot, attach with rollback, restore; lending and bringing home is the identity.
- `NodeRecords.dfy`, `NodeRuns.dfy`: the records of lent NICs, and a node's store, kernel and the handlers that change
  them. The promise is `Node.NeverLost`: a NIC outside the host namespace has a stored record that is not marked
  restored. Every handler keeps the records consistent (`Node.Consistent`) and says exactly when it keeps the promise.
  Where no lookup can mistake another link for a NIC (`Node.Valid`), only one thing breaks it, a re-attach described
  below; so it holds in every crash-free run without that.
- `Unprepare.dfy`: unprepare as a whole, across node, cluster, claim status and CDI directory.

**The node's store, names and status.**

- `NodeStore.dfy`, `Reload.dfy`: device records, their keys, key migration, local address records.
- `InterfaceNames.dfy`: the name a macvlan or ipvlan interface gets inside a Pod.
- `DeviceStatus.dfy`, `StatusWriters.dfy`: the device status list of a claim, and many writers of it under optimistic
  concurrency.
- `PodAnnotation.dfy`: the sorted network annotation of a Pod.

## What is assumed

- The API server: Create is atomic, Delete honours its UID precondition, UpdateStatus is refused under an outdated
  version, object and claim UIDs never come back, the spec of an `IPAllocation` is immutable
  (deployments/helm/linux-net-dra/crds/ipallocations.linux-net.dra.infinitydon.com.yaml:51-53). Objects that are not
  made by the driver may come and go but are malformed. Nothing is assumed about the naming function.
- Each claim is prepared on one node, and prepares of a node are serialized (internal/driver/driver.go:451-452).
- The kernel: link names are unique in a namespace; a link's addresses differ in prefix or peer; a failed operation
  has no effect; a link that goes down or is moved may lose addresses.
- Host devices: the cluster allocates a NIC to one claim at a time (`Node.Allocated`), nobody but the driver takes a
  lent NIC to another Pod (`Node.Tolerable`), and when a NIC is attached no other link has its host name or saved
  hardware address (`Node.ToAttach`, `StandClear`).
- That nothing is ambiguous is no assumption but a condition, in the second half of each handler's contract. A restore
  looks links up by saved name, saved hardware address and attached name. Records stay unambiguous when a prepared NIC
  has a hardware address of its own and no NIC of a running Pod asks for the host name of another
  (`Node.Distinguished`); when a noted namespace brings no clash (`Node.Usable`); when whoever is already attached by a
  name that another NIC of the Pod asks for is still in the Pod under it (`NamesGuarded`, which a fresh namespace always
  meets); when a stopping sandbox reports no namespace, the stored one, or another without a clash (`AllReachable`); and
  when links outside keep names and take no saved hardware address (`Node.Quiet`).
- `podInterfaceName` reads the store under the Pod's UID and prepare writes under the UID of the reservation; the two
  are taken to be equal (internal/driver/driver.go:383, 566). A device key does not change between shared and
  exclusive use.

## Where the code does less than one might expect

- When 255.255.255.255 is taken, `reserveDynamicAddress` leaves the current range, and addresses listed after it are
  not tried (internal/driver/ipam.go:110-112). `Pools.CandidatesComplete` says exactly when nothing is hidden,
  `Pools.BreakHidesAddress` is an instance.
- A re-attach that fails after the move while its record still says Restored is not rolled back, and the NIC is away
  without a record that would bring it home (internal/driver/hostdevice.go:79-91). `NodeRuns.Node.AttachSlot` says
  exactly when, `NodeRuns.Node.Reattach` how a node gets there.
- The rollback of an attach, and every later restore, looks for the NIC in the Pod by its hardware address only, since the
  record names no interface yet (internal/driver/hostdevice.go:116-117). `HostDevice.AttachHostDevice` has the case with
  the saved hardware address; for a NIC without one `HostDevice.RestoreInVain` applies. The record stays.
- A restore that takes another link for the NIC marks the record restored (internal/driver/hostdevice.go:90-149).
  `NodeRuns.Node.RestoreSlot` says exactly when that loses the NIC: never if no other link answers to the record, and
  with every success if the NIC is away and another link has its host name.
- A restore that renamed the link inside the Pod and then failed cannot find it again if the Pod has also changed its
  hardware address (internal/driver/hostdevice.go:115-134): `HostDevice.FoundAgain` is the exact condition, and by
  `HostDevice.RestoreInVain` every later restore fails without effect. The record stays.
- The local address record outlives the cluster's when the attempt fails at the CDI specifications, or when the last
  Delete took effect without a reply (internal/driver/driver.go:601-611): `Unprepare.Plugin.Attempt` has the exact
  condition.
- Removing device status has no UID check, unlike reporting it (internal/driver/status.go:165-187): a removal hits the
  claim it was meant for exactly when that is the one it read (`StatusWriters.RemovalHitsWhatWasRead`), and
  `StatusWriters.RemovalHitsSuccessor` is a run in which it wipes the entries of a new claim of the same name.
- Of two Pod annotation entries for one claim and interface, one without PCI address replaces the other or not
  depending on the order: `PodAnnotation.OrderFreeExactly` has the exact condition.
- Names of host devices may collide with those of other devices of the Pod (internal/driver/driver.go:507-516):
  `InterfaceNames.OtherTypesMayCollide` is an instance, `InterfaceNames.DevicesApartExactly` the exact condition.
- Two devices of one claim on one pool get the same address, since the second is given the allocation that the claim
  has (internal/driver/ipam.go:39-51): `Ipam.ApplyToTwo` says that this happens exactly then.
- A DPDK record of a shared allocation is moved by the next load: `Reload.DpdkShareIsMoved`.

## Model

| member | source | states |
|---|---|---|
| `Ipv4.Uint32RoundTrip` | internal/driver/ipam.go:234-242 | the two conversions between address bytes and 32-bit words are inverse to each other |
| `Ipv4.CidrTextInjective` | internal/driver/ipam.go:102 | different addresses or prefix lengths never have the same text |
| `Ipv4.CidrTextReads` | internal/driver/ipam.go:102 | read octet by octet and after the slash, the printed text gives back address and prefix length |
| `Ipv4.SubnetConvex` | internal/driver/ipam.go:138-165 | between two addresses of a CIDR block there are only addresses of the block |
| `Ipv4.ContainsLeadingBits` | internal/driver/ipam.go:138-165 | an address is in a CIDR block if and only if its leading bits, as many as the prefix length says, are those of the block |
| `Ipv4.ContainsBlock` | internal/driver/ipam.go:138-165 | the members of a block are exactly 2^(32-length) consecutive addresses, the first a multiple of that number |
| `Pools.ExpandIPRange` | internal/driver/ipam.go:190-212 | the loop with its wrapping 32-bit counter ends, also at 2^32-1, and yields the parsable entries in order, then start..end |
| `Pools.ExpandedMembers` | internal/driver/ipam.go:167-212 | an address is in the expansion exactly when the membership test accepts it, for every range, however malformed or reversed |
| `Pools.ExpandedBoundsAscending` | internal/driver/ipam.go:200-211 | the bounds part ascends from start to end without a gap |
| `Pools.ValidRangeInSubnet` | internal/driver/ipam.go:138-165 | validation of the endpoints puts every address of the range into the subnet |
| `Pools.ValidRangeExactly` | internal/driver/ipam.go:138-165 | a range passes exactly when every entry is an address, there are no bounds or two in order, and all of its addresses are in the subnet |
| `Pools.EligibleMembers` | internal/driver/ipam.go:95-101 | the offered addresses are those in an allocation range and in no reservation |
| `Pools.CandidatesComplete` | internal/driver/ipam.go:95-116 | every offered address is tried, in order, if and only if 255.255.255.255 is the last unreserved one of each range that offers it |
| `Pools.BreakHidesAddress` | internal/driver/ipam.go:110-112 | a valid pool with an offered address that is never tried |
| `Pools.CandidateAdmissible` | internal/driver/ipam.go:95-116 | whatever is tried lies in the subnet, in an allocation range and in no reservation |
| `Pools.StaticOrDynamic` | internal/driver/ipam.go:53-61 | in a valid pool every reserved address can be had by asking for the very text that is then stored, and by no other; none of them is ever tried dynamically, and each address of the allocation ranges is offered in exactly one of the two ways |
| `Allocations.Parse` | internal/ipamapi/allocation.go:148-164 | what is parsed is what the object says, under its name |
| `Allocations.ParseNewSpec` | internal/ipamapi/allocation.go:48-76 | writing and parsing gives the allocation back if and only if pool, address and claim UID are present |
| `ProtocolInvariant.StepKeeps` | internal/ipamapi/allocation.go:78-146 | every step of every party keeps the invariant that ties objects, history, claims, local entries and the progress of all threads |
| `ProtocolInvariant.RunKeeps` | internal/controller/controller.go:53-109 | the invariant holds in every state of every run |
| `ProtocolInvariant.StaleMeansGone` | internal/controller/controller.go:88-97 | a claim judged stale no longer exists |
| `ProtocolTheorems.NoAddressShared` | internal/ipamapi/allocation.go:78-100 | in every reachable state no two allocations carry the same pool and address, whatever the naming function does |
| `ProtocolTheorems.AtMostOneAllocation` | internal/driver/ipam.go:38-73 | in every reachable state a claim owns at most one allocation, also after lost replies |
| `ProtocolTheorems.KeptUntilReleased` | internal/ipamapi/allocation.go:102-126 | an allocation stays as it is while its claim exists and no release of that claim has deleted it, whatever others do |
| `ProtocolTheorems.ReleaseTakesItsOwn` | internal/ipamapi/allocation.go:110-124 | what a release deletes belongs to the claim it releases, although it was listed earlier |
| `ProtocolTheorems.SweepSparesTheLiving` | internal/controller/controller.go:53-109 | what the controller deletes belonged to a claim that no longer exists and never will again, although list, lookup and delete see three moments |
| `ProtocolTheorems.ExclusiveHolders` | internal/driver/ipam.go:75-80 | of living claims that have not released, no two hold the same address in any node's store, and the cluster object agrees |
| `ProtocolTheorems.CreateLeavesObject` | internal/ipamapi/allocation.go:78-84 | a Create under a free name makes the claim's object even if the reply is lost, and the prepare then ends |
| `ProtocolTheorems.FindsWhatWasMade` | internal/ipamapi/allocation.go:128-146 | the next prepare of the claim finds exactly that object |
| `ProtocolTheorems.SuccessAgrees` | internal/driver/ipam.go:38-81 | on success the returned address, the cluster object and the local entry are the same pair |
| `ProtocolTheorems.SameAnswer` | internal/driver/ipam.go:38-51 | until the node forgets the claim, all its successful prepares return the same pool and address |
| `ProtocolTheorems.RepeatReachesSameAddress` | internal/driver/ipam.go:38-51 | a repeated prepare goes straight to saving the stored pair, and that succeeds |
| `ProtocolTheorems.LocalPersists` | internal/driver/store.go:164-180 | a local entry stays until the claim is forgotten |
| `PoolDiscipline.AllocationsFitTheirPool` | internal/driver/ipam.go:26-73 | with fixed pools every reachable allocation lies in its subnet, Dynamic ones in a range and in no reservation, Static ones in a reservation |
| `PoolDiscipline.OneAllocationPerAddress` | internal/driver/ipam.go:95-116 | no two allocations of a pool denote the same 32-bit address, however written |
| `Api.ApiServer.Create` | internal/ipamapi/allocation.go:81 | atomic, refused under a taken name, possibly effective without a reply |
| `Api.ApiServer.Delete` | internal/ipamapi/allocation.go:117-120 | removes only the object with the given UID |
| `Ipam.Reserve` | internal/ipamapi/allocation.go:78-100 | unless a call fails, the answer is determined: success when the name is free or holds this very pool, address and claim, refusal when a well-formed other allocation is there, an error when a malformed object is |
| `Ipam.FindForClaim` | internal/ipamapi/allocation.go:128-146 | unless a call fails, returns an allocation of the claim, and none only if there is none |
| `Ipam.DeleteForClaim` | internal/ipamapi/allocation.go:102-126 | succeeds exactly when no call fails, and then leaves exactly the objects that are not the claim's; failure has removed some of the claim's and changed nothing else |
| `Ipam.ReleasingKeepsUnowned` | internal/ipamapi/allocation.go:102-126 | however far a release got, what it will leave is the same |
| `Ipam.ReserveDynamicAddress` | internal/driver/ipam.go:95-116 | returns the first candidate that is free or the claim's already, reports exhaustion exactly when all are blocked, and an error only if a call failed or a malformed object is at the first candidate not blocked; the same over all offered addresses when none is hidden |
| `Ipam.TryRange` | internal/driver/ipam.go:98-113 | the inner loop tries the unreserved addresses of a range in order, up to 255.255.255.255 |
| `Ipam.ApplyIPAM` | internal/driver/ipam.go:17-81 | on success the address is the one the claim has, the first usable candidate or the one asked for, and configuration, cluster object and local entry are that one pair; at most one object is made, for this claim, and only if it had none; other claims' entries stay; without a failed call a claim with at most one allocation is refused exactly when the pool is unknown or invalid, no address is due to it, or the node has another one recorded |
| `Ipam.ApplyToTwo` | internal/driver/ipam.go:38-51 | two devices on one pool get the same address if and only if they belong to one claim |
| `Refinement.AssignedIsARun` | internal/driver/ipam.go:95-116 | an address the loop assigns is reached by the protocol's Create and Get steps, with the same cluster state |
| `Refinement.ExhaustedIsARun` | internal/driver/ipam.go:95-116 | exhaustion reported by the loop is the protocol's prepare ending without an address after trying every candidate |
| `Refinement.ErrorIsARun` | internal/driver/ipam.go:107-109 | an error of the loop is the protocol's prepare ending after a Create whose reply was lost, or giving up |
| `Refinement.AppliedIsARun` | internal/driver/ipam.go:38-81 | a successful applyIPAM, by lookup, dynamic or static, is a run of the protocol to the same cluster, after which the claim holds the same pair on the node |
| `Refinement.ReleaseIsARun` | internal/ipamapi/allocation.go:102-126 | a release without failed calls is a run of the protocol, leaving the same objects and forgetting the claim |
| `Refinement.SweepIsARun` | internal/controller/controller.go:53-109 | the sweep of a reconcile without failed calls is a run of the protocol, leaving the same objects |
| `Reconcile.SweepAndCount` | internal/controller/controller.go:53-85 | success leaves exactly what is not stale, malformed objects included, with right counts for every pool; it needs that no call fails, and with the kind installed that is enough |
| `Reconcile.AllocationIsStale` | internal/controller/controller.go:88-97 | stale means that the recorded name has no claim or one with another UID |
| `Reconcile.TallyAddsUp` | internal/controller/controller.go:74-83 | dynamic and static counts add up to the total |
| `Reconcile.TransitionTime` | internal/controller/controller.go:154-168 | the time of the first condition that says ready, else the present; never empty |
| `Reconcile.UpToDateReads` | internal/controller/controller.go:117-152 | a status that is up to date has these counts and the one condition Ready, True, for the present generation, with reason and message |
| `Reconcile.UpdatePoolStatuses` | internal/controller/controller.go:117-152 | success brings every pool up to date, keeping transition times; up-to-date pools are not written |
| `Reconcile.Reconcile` | internal/controller/controller.go:53-152 | removes only stale allocations, on success all of them with every pool's status up to date; when nothing is left to do, writes nothing; with the kind installed it succeeds exactly when no call fails |
| `Reconcile.ReconcileAgain` | internal/controller/controller.go:53-168 | a second reconcile right after a successful one makes no write call, each pool's counts are those of the surviving allocations, and its condition reads as it should |
| `HostDevice.SnapshotHostDevice` | internal/driver/inventory.go:115-152 | restoring the snapshot would leave the link exactly as it is |
| `Kernel.Netlink.FindLink` | internal/driver/hostdevice.go:252-268 | what is found has the preferred name or the hardware address, in that namespace; when the lookups work, the preferred name wins, and nothing is found only if no link has either |
| `HostDevice.RestoreLinkState` | internal/driver/hostdevice.go:182-250 | success leaves the link as saved, unless an address delete failed; failure leaves it on the way there |
| `HostDevice.RestoreHostDevice` | internal/driver/hostdevice.go:90-149 | touches only a link that answers to the record; on success that link is home and as saved; a record marked restored is left alone; if only the NIC answers, where the restore looks, its name is free on the way and no call fails, it succeeds on the NIC |
| `HostDevice.RestoreInVain` | internal/driver/hostdevice.go:90-149 | when no link answers to the record, any number of restores fail and change nothing |
| `HostDevice.FoundAgain` | internal/driver/hostdevice.go:115-134 | after a failed restore the NIC is not found again if and only if it was renamed and left in the Pod and its hardware address is not the saved one |
| `HostDevice.AttachHostDevice` | internal/driver/hostdevice.go:21-88 | touches only the NIC; success leaves it configured in the Pod, and comes about with free names and no failed call; a failed move is undone; a failure after the move leaves the NIC away and marked restored if and only if it was marked so on entry; otherwise, if it has its saved hardware address and only one thing went wrong, it is brought home; a completed rollback leaves it as saved |
| `RoundTrip.RestoreUntilHome` | internal/driver/hostdevice.go:90-149 | after any number of failed attempts a successful one leaves the NIC as it was lent, whatever was done to MTU, hardware address and addresses; without a failed call the first one succeeds |
| `RoundTrip.LendAndBringHome` | internal/driver/hostdevice.go:21-149 | snapshot, attach, any change in the Pod and restore, or an attach rolled back, leave the NIC as it was lent and every other link as it was; a further restore does nothing; with free names and no failed call it is attached and comes home at the first attempt |
| `NodeRecords.PromiseAfterOne` | internal/driver/hostdevice.go:79-101 | when one record changes and no other NIC moves except home, the promise for all NICs holds if and only if that NIC is home or its record not marked restored |
| `NodeRecords.PromiseAfterMany` | internal/driver/hostdevice.go:270-327 | when records are only marked and links only come home, the promise holds if and only if every NIC newly marked restored is home |
| `NodeRuns.Node.constructor` | internal/driver/driver.go:543-568 | a node whose NICs are all at home keeps the promise |
| `NodeRuns.Node.PrepareHostDevice` | internal/driver/driver.go:543-568 | keeps the promise; a record that exists is kept with its snapshot; otherwise success has stored a snapshot of the link of that name, and without a failed call it succeeds exactly when that link is there and safe; a distinguished NIC leaves nothing ambiguous |
| `NodeRuns.Node.AttachSlot` | internal/driver/driver.go:683-712 | breaks the promise exactly when the attach fails after the move and the record said Restored on entry, whatever names are asked for; success leaves NIC and record as asked for, and comes about when nothing stands in the way and no call fails |
| `NodeRuns.Node.RunPodSandbox` | internal/driver/driver.go:645-717 | on success every NIC of the Pod that was not attached is in its namespace, up, with name, addresses and MTU as asked for, its record attached and its flag down, and the others are as they were; NICs of other Pods are left alone, success or not; it succeeds when nothing stands in the way and no call fails; the promise is kept exactly when no attach as above occurred; guarded names leave nothing ambiguous |
| `NodeRecords.ReadyStays` | internal/driver/driver.go:665-712 | if none of the NICs still to be attached asks for a name that another needs, attaching one leaves the others free to be attached |
| `NodeRecords.FreshIsGuarded` | internal/driver/driver.go:665-712 | where nothing is attached yet, all names are guarded, even if several NICs ask for one |
| `NodeRuns.Node.Reattach` | internal/driver/driver.go:683-712 | after a restore, a re-attach breaks the promise exactly when it fails after the move |
| `NodeRuns.Node.StopPodSandbox` | internal/driver/hostdevice.go:270-304 | looks in the sandbox's own namespace, else in the stored one; success marks every record of the Pod; no other record changes; the promise is kept exactly when every NIC newly marked restored is home, and always where nothing is ambiguous; there, without a failed call, every NIC that nothing stands in the way of is restored, whatever happens to the others |
| `NodeRuns.Node.OwnSandboxReachable` | internal/driver/hostdevice.go:276-279 | the stored namespace, or none, brings no ambiguity |
| `NodeRuns.Node.Synchronize` | internal/driver/driver.go:616-643 | notes namespaces, leaves the NICs of running Pods alone and restores orphaned ones until a record cannot be saved; the promise is kept exactly when every NIC newly marked restored is home, and always where nothing is ambiguous; without a failed call it succeeds, and where nothing is ambiguous every orphan that nothing stands in the way of is restored |
| `NodeRuns.Node.RestoreClaim` | internal/driver/hostdevice.go:306-327 | success marks every record of the claim; the promise is kept exactly when every NIC newly marked restored is home; where nothing is ambiguous they all are, and success or not, where they will end up does not change; there, without a failed call, every NIC that nothing stands in the way of is restored |
| `NodeRecords.AbleStays` | internal/driver/hostdevice.go:306-327 | a restore, finished or not, does not come to stand in the way of another |
| `NodeRuns.Node.DropClaim` | internal/driver/driver.go:611 | dropping the records of a claim that are all marked restored keeps the promise |
| `NodeRecords.RestoreKeepsDestination` | internal/driver/hostdevice.go:306-327 | a restore, finished or not, does not change where a NIC will end up |
| `NodeRuns.Node.Disturb` | internal/driver/hostdevice.go:252-268 | the promise survives whatever others do to links short of taking a NIC to another Pod, and changes that keep names and take no saved hardware address leave nothing ambiguous |
| `NodeRuns.Node.RestoreSlot` | internal/driver/hostdevice.go:90-149 | breaks the promise exactly when it succeeds on another link while the NIC is away: never if no other link answers to the record, and with every success if the NIC is away and another link has its host name; it succeeds when nothing stands in the way and no call fails |
| `Unprepare.RemoveDeviceStatus` | internal/driver/status.go:165-187 | success leaves exactly the other drivers' entries; failure leaves that still to be had, and comes from a failed call |
| `Unprepare.Plugin.Attempt` | internal/driver/driver.go:590-614 | wherever an attempt fails, the final state it leads to is the same; success is that state; it succeeds when nothing stands in the way of the claim's NICs and no call fails; a claim's local address record is left without its object exactly when it ends at the CDI specifications, or at the allocations with all of them gone |
| `Unprepare.Plugin.UnprepareUntilDone` | internal/driver/driver.go:590-614 | any failed attempts followed by a success end in the state fixed at the start, and without a failed call the first attempt does; for the links, unless an address delete failed in a restore that succeeded |
| `Unprepare.FinalExact` | internal/driver/driver.go:590-614 | in that state nothing of the claim is left, its NICs are home and as saved, and links, records, objects, status entries and CDI specifications of others are as before |
| `NodeStore.StoreKeyInjective` | internal/driver/store.go:72-78 | keys agree exactly when claim, device and share do, without slashes in the first two and with absent and empty share identified |
| `NodeStore.SlashMakesKeysCollide` | internal/driver/store.go:72-78 | two triples with one key, when a device name has a slash |
| `NodeStore.Store.MigrateDeviceKeys` | internal/driver/store.go:80-96 | every record is found under its migrated key and nothing else is there; a change is reported exactly when some record was misplaced |
| `NodeStore.MigrationIdempotent` | internal/driver/store.go:80-96 | migrating again changes nothing |
| `NodeStore.MigrationLosesNothing` | internal/driver/store.go:80-96 | full records with distinct triples all survive, under distinct keys |
| `NodeStore.Store.SetDevice` | internal/driver/store.go:98-109 | the record is stored in memory whether or not the file could be written |
| `NodeStore.Store.SetNetNS` | internal/driver/store.go:111-119 | the namespace is stored, devices are kept |
| `NodeStore.Store.DeleteClaim` | internal/driver/store.go:145-162 | the claim's devices, Pods left without devices and its address record are gone, by deletion during iteration |
| `NodeStore.WithoutClaimExact` | internal/driver/store.go:145-162 | nothing of the claim remains, every other record is as before, and doing it again changes nothing |
| `NodeStore.Store.ReserveIP` | internal/driver/store.go:164-180 | one record per claim: repeating it is fine, a different one is refused |
| `Reload.HistoryStaysCanonical` | internal/driver/driver.go:481-486 | in every store the driver's writes can reach, each record is under its own key |
| `Reload.ReloadAfter` | internal/driver/store.go:64-69 | loading such a store migrates nothing |
| `Reload.DpdkShareIsMoved` | internal/driver/dpdk.go:45-65 | a DPDK record stays in place exactly when its allocation has no share |
| `InterfaceNames.PodInterfaceName` | internal/driver/driver.go:382-438 | a named device keeps its name; an override is taken if valid and free; otherwise the configured name or the smallest free net<j> above it |
| `InterfaceNames.ValidNameReads` | internal/driver/driver.go:440-448 | a name is valid exactly when it has 1 to 15 characters, is neither . nor .., and has no slash, colon, blank, tab or line break |
| `InterfaceNames.FreeNameExists` | internal/driver/driver.go:427-437 | on a collision of net<k> a name is found whenever at most 9999-k names are used |
| `InterfaceNames.NamesAlwaysApart` | internal/driver/driver.go:510-568 | in every reachable store the macvlan and ipvlan devices of a Pod have pairwise distinct, valid names |
| `InterfaceNames.PrepareLinkDevice` | internal/driver/driver.go:510-568 | choosing the name and storing the record keeps all names of the Pod distinct and valid, leaves its other records alone, and keeps the name of a device prepared before, whatever is asked for now |
| `InterfaceNames.DevicesApartExactly` | internal/driver/driver.go:507-568 | along every history all devices of every Pod have distinct names if and only if each device that is neither macvlan nor ipvlan was prepared without a name or under one that no other device of its Pod had |
| `DeviceStatus.MergeStatus` | internal/driver/status.go:73-83 | the replace-or-append loop is the upsert |
| `DeviceStatus.UpsertFind` | internal/driver/status.go:73-83 | seen by keys, the upsert is a map update |
| `DeviceStatus.RemoveInPlace` | internal/driver/status.go:174-179 | the filter that overwrites the list it reads is the functional filter |
| `DeviceStatus.WithoutFind` | internal/driver/status.go:174-179 | seen by keys, removal takes the driver's entries and nothing else |
| `DeviceStatus.ReadyIsSet` | internal/driver/status.go:128-141 | a report sets the Ready condition, keeps every other one, and moves the transition time only when the value changes |
| `DeviceStatus.PutKeepsConditions` | internal/driver/status.go:89-163 | after a report the entry has the report's data and its Ready condition, with the earlier transition time exactly if the entry was Ready with the same value, and every other condition of the earlier entry |
| `DeviceStatus.FoldDistinct` | internal/driver/status.go:189-198 | no key occurs twice, whatever was written |
| `DeviceStatus.DriversApart` | internal/driver/status.go:60-87 | a driver's entries, in their order, are what its own writes alone make of them |
| `StatusWriters.ListIsItsWrites` | internal/driver/status.go:60-87 | in every run with conflicts and retries the list equals the successful writes one at a time in commit order, and no report for another claim UID is among them |
| `StatusWriters.CommitIsLogged` | internal/driver/status.go:84-86 | a committing write applies to the list as it is at that moment, although it was computed from an earlier read; a committed report keeps the conditions that entry then has |
| `StatusWriters.LogGrows` | internal/driver/status.go:60-87 | committed writes are never undone or reordered |
| `StatusWriters.RemovalHitsWhatWasRead` | internal/driver/status.go:165-187 | a committed removal takes exactly the driver's entries, of the claim it was meant for if and only if that is the claim it read |
| `StatusWriters.RemovalHitsSuccessor` | internal/driver/status.go:165-187 | a run in which a removal meant for a deleted claim empties the list of its successor |
| `PodAnnotation.MergeStatus` | internal/driver/status.go:302-313 | the replace-or-append loop is the upsert |
| `PodAnnotation.UpsertMembers` | internal/driver/status.go:302-313 | among compatible entries the upsert is a map update |
| `PodAnnotation.SortedUnique` | internal/driver/status.go:314-322 | a sorted list without equal keys is determined by its members, so the unstable sort has one result |
| `PodAnnotation.SortedReads` | internal/driver/status.go:314-322 | a sorted list ascends by interface name, under one name by claim, and under one claim by PCI address |
| `Text.LessAtFirstDifference` | internal/driver/status.go:314-322 | one text is less than another exactly when it is smaller at the first place where they differ, or is a proper beginning of it |
| `PodAnnotation.PublishedMembers` | internal/driver/status.go:302-324 | the annotation holds the reports and the earlier entries for which nothing was reported |
| `PodAnnotation.PublishedSorted` | internal/driver/status.go:302-324 | whatever is reported, a sorted annotation without equal keys stays one |
| `PodAnnotation.OrderIrrelevant` | internal/driver/driver.go:665-717 | any permutation of the reports gives the same annotation, from any earlier annotation |
| `PodAnnotation.OrderFreeExactly` | internal/driver/status.go:302-324 | from any sorted earlier annotation, for distinct reports in one namespace, the order is irrelevant if and only if every report that shares claim and interface with one without PCI address has an earlier entry of theirs before it |
| `PodAnnotation.ReportDevices` | internal/driver/driver.go:665-717 | reporting a Pod's devices in whatever order the map yields them gives the annotation of any other order |

## Left out

- The programs under cmd/, internal/config and event emission: flags, validation of single records, reporting.
- internal/driver/dpdk.go and device discovery: file reads and branches. Only the key of a DPDK record is modelled.
- attachLink, routes (pool routes included) and mode tables: foreign calls and field copying. In `NodeRuns` a device of
  another type is one call that may fail, and its record is left as it is.
- Directly supplied addresses and overlapping pools: they bypass the uniqueness that the code provides. Editing pools
  during a run is covered by the uniqueness theorems, not by `PoolDiscipline`, since an existing allocation is reused
  without being checked against the ranges again.
- Writing the state file, and a crash in the middle of a handler: the store is in memory and writing it may fail. The
  sharing of maps handed out by the store is not modelled; the sharing of the snapshot record between handler and store is.
- Text of addresses: `Pools.IpText`, `Pools.RequestedText` and the parsed subnet stand for what Go's parsers make of it.
  Subnets in IPv4-mapped notation are not covered.
- Hardware addresses are compared as equal text where the code ignores case; strings are sequences of characters
  where Go has bytes, so the length limit of an interface name counts characters.
- Addresses that the kernel adds by itself (IPv6 link-local) while a link comes up.
- RoundTrip.LendAndBringHome: for a NIC whose hardware address, if it has one, no other link has. A hardware address or
  MTU missing from the snapshot stays as the Pod left it, as in the code. It speaks of restores whose address deletes
  all succeed, since the code ignores a failed one; so do the links in Unprepare.
- PodAnnotation.OrderFreeExactly: not for an earlier annotation that is unsorted, which this code never writes;
  `PodAnnotation.OrderIrrelevant` covers those without its exact condition.
- Unprepare.Plugin.Attempt: without interference from other writers during the attempts; CDI files are identified by
  claim and device instead of by a glob over file names.
- Ipam.ApplyIPAM: takes the pools as reloaded; that the names of pools and claim UIDs are not blank is a precondition.
