# MiniEureka's replication core, verified

MiniEureka is a leaderless, in-memory service registry. Its nodes exchange
mutations and compact fences by gossip and must agree whatever the order and
number of deliveries. This project models that core in Dafny, in the form the
source has: classes with mutable fields for the registry, the clock, the wheel,
the service, the membership table and the event ring, each method proved against
a function of its old state; and functions and lemmas for the pure parts. What
the system promises is proved about those functions, for every input and every
run.

`dafny verify dfyconfig.toml` checks everything.

## Modules

| module | part of the system |
|---|---|
| Ordering, Versions, Model | comparison, versions and their text, records, mutations, fences and their validation |
| Canonical | sorting by key: a sorted list of distinct keys is unique |
| OperationWindow | the 32-id memory of client operations |
| Authority | the four comparators and the one rank order behind them |
| Cells, Convergence | one key (entry and fence) under the four operations; whole registries, histories, convergence |
| Digest, Registry | canonical shard views, export; the mutable registry with its loops |
| Clock | the hybrid logical clock |
| Wheel | the hashed timing wheel as a bag of tasks |
| Operations, Leases | the mutations a node writes; leases and the tasks that end them |
| Races | one key between a service's read and its apply |
| NodeRun | one node as its locked regions in any interleaving: where every lease's task is |
| Service | local writes, remote merges, scheduling and the expiry handler, as runs of NodeRun |
| AntiEntropy | paging, the cursor loop, a pull as a join |
| ClusterRun | nodes exchanging mutations in any interleaving |
| Membership | the membership table and its refutations |
| EventRing | the bounded log, polling, subscriptions, the drain |
| Dashboard | the administration page's reducer |

## Main results

*Authority.* The rank of a mutation, entry or fence is (lease epoch, explicitly
terminal, version, kind priority, event id). The authority of a key is the rank of
its entry, else of its fence, else nothing. `Convergence.AuthorityIsMaximum`: after
any history the authority is the largest rank received. `ClusterRun` discharges
its lease hypothesis for every run of nodes with distinct ids.

*Expiry.* `NodeRun` takes one node apart into its locked regions: a writer's registry
apply and, later, each of its two calls to the wheel; clock readings and observations;
fences; collections; ticks; and the read, draw and apply of each expiry.
`NodeRun.EveryLeaseHasItsTask`: in every interleaving the expiry task of every live lease
is on the wheel, with the handler, or in the hands of a writer that has not yet scheduled
it. `Service.Service.Advance`, which joins wheel, version text, registry and clock, is
shown to be such a run, so after it nothing else is overdue (`NodeRun.RunForgetsNothing`),
and no lease left alone ended early (`Service.LeftAlone`).

*Anti-entropy.* `AntiEntropy.SyncPeer` computes the pointwise join of authorities;
after `AntiEntropy.PullBothWays` both sides agree, and their digests match exactly when
they collected the same tombstones. `ClusterRun` proves the hypotheses of both for any
two nodes of any run.

*In fields and characters.* The orders, the clock and every operation are also stated
without the functions that compute them: who wins (`Authority.IncomingWinsExactly`), what a
write, a mark or a collection leaves (`Cells.AppliedExactly`, `Operations.RegistrationLeaves`,
`Cells.DelayMarksExactly`, `Cells.CollectsExactly`), which remote versions are accepted and
which value follows (`Clock.AcceptedWithinSkew`, `Clock.ObserveIsLeast`), what a pull is
offered (`AntiEntropy.OfferedExactly`), how long a silent peer lasts (`Membership.PassInAges`,
`Membership.ContactHoldsOff`), and what a page accepts (`Dashboard.AcceptsFirstOfEach`).

## Where the code does not do what one would expect

Each of these is a lemma with the exact condition.

- The expiry handler reads a record, draws a version and applies the eviction under
  three locks, and a heartbeat applied in between, and answered as applied, is lost: its
  lease ends before the new deadline (`Races.EndsEarlyExactlyWhen`,
  `Races.RenewedLeaseIsEvicted`).
- A renewed lease also ends early, with no race inside a node, when a peer that never
  received the heartbeat expires its own copy and that expiry arrives: the registry
  compares epochs, lease ids and versions, never deadlines (`Races.ExpiryEndsExactly`,
  `Races.RenewedLeaseIsEvictedByPeer`).
- An apply lets go of the registry before it tells the wheel. In between a live lease has
  no task there and can be overdue (`NodeRun.AppliedNotScheduled`); and a writer that
  waits for ever in `Publish` (see below) never schedules it, so that it never expires
  (`NodeRun.UnscheduledLeaseNeverExpires`). The handler publishes too: held up there, it
  takes no further region, and no lease of the node expires by itself.
- The handler drops a task it takes while the service's clock reads less than the task's
  deadline, and nothing schedules it again (`NodeRun.TakenTooSoonIsForgotten`).
- Two registrations with one registration id can both be applied
  (`Races.RacingRegistrations`).
- Order independence needs one mutation per non-empty operation id and one lease id
  per epoch; for two mutations `Convergence.TwoOrdersAgree` says exactly when, and
  `Convergence.ReusedOperationId` is an example.
- A registration is refused after the generation counter wraps to 0
  (`Operations.RegisterApplies`, `Operations.GenerationWraps`).
- Fences bypass the clock, so a registration can be stale until the clock reaches the
  fence's epoch (`Operations.UnseenFenceBlocksRegister`).
- A lease relayed with less than a millisecond left arrives without a deadline, and
  the receiver never expires it by itself (`Digest.RelayedDeadline`,
  `Digest.LastMillisecondIsLost`).
- A wheel count overflows for deadlines about 292 years ahead
  (`Wheel.TicksAreDue`, `Wheel.FarDeadlineWraps`); the wheel then visits the task early and schedules it again.
- An accusation at the largest 64-bit incarnation cannot be answered
  (`Membership.AccusationIsAnswered`, `Membership.LargestAccusationWins`).
- A failure mark stamped by a clock behind the peer's version ranks below the record
  it replaces and is undone by gossip, because the table never shows member versions
  to its clock (`Membership.MarkStandsWhenLater`, `Membership.FastPeerShedsSuspicion`).
- A publish between the two critical sections of `Subscribe` is lost to that
  subscription (`EventRing.SubscriptionDelivers`, `EventRing.PublishBetweenIsLost`).
- `Publish` is documented as never waiting, but its drain of a full queue can wait
  for ever while holding the ring's lock (`EventRing.StuckExactlyWhen`,
  `EventRing.FullQueueCanStick`).
- The page's per-service counts go wrong if service names hold slashes
  (`Dashboard.SlashesBreakCounts`), and if a snapshot lists a key twice
  (`Dashboard.SnapshotCounts`, `Dashboard.RepeatedKeyIsCountedTwice`).

## Modelling conventions

- Each lock-held region is one step. In `ClusterRun` and `NodeRun` every region is a step
  of its own, so a write may be built from a read as old as one likes and scheduled as
  late as one likes. `Service.Apply`, the handler and `Advance` take the operations of
  others as parameters, one list for every gap between two regions, and their contracts
  name the run they are. The client calls (`Register`, `Heartbeat`, `Deregister`) and
  `ApplyRemote` run their regions one after the other, and `Races` treats what may fall
  between a read and its apply: none to the same key changes nothing
  (`Races.QuietWritesAreAtomic`), and what the rest do is stated exactly.
- In `NodeRun` a task put on the wheel need not be one a writer holds: more tasks than the
  code would schedule are allowed there, never fewer.
- `Subscribe`, whose two regions matter, is also modelled with anything between them,
  and the drain in `Publish` with a consumer taking at any point.
- Wall clocks, service clocks, fresh random ids, map iteration order (`Table.Tick`)
  and the browser's collation are parameters. `Reading.Ok` says a fresh id is a valid
  identifier and the clock does not read Go's zero time.
- Times are integers of nanoseconds. Where 64-bit arithmetic wraps or saturates in
  the tick count, the clock's skew test, the lease deadline, the remaining TTL, the
  generation, the incarnation, and the ages of members and tombstones, the model does
  too.
- Shards are a function from service to index; the digest hash and JSON encoding are
  arbitrary functions, and collision-freedom is a hypothesis where it is needed.

## Model

| member | source | states |
|---|---|---|
| Versions.CompareVersion | backend/internal/model/version.go:38-52 | Three-way comparison: zero exactly for equal versions, so no two distinct versions tie; `Versions.VersionOrder` says which comes first. |
| Ordering.StringsInDictionaryOrder | backend/internal/model/version.go:51 | In characters: one string is before another if and only if it is a proper prefix of it, or at the first place where they differ its character is the smaller. |
| Versions.VersionOrder | backend/internal/model/version.go:38-52 | In fields and characters: a version is before another if and only if its physical time is less, or that is equal and its counter less, or both are equal and its node id comes first in the dictionary. |
| Versions.VersionsAntisymmetric | backend/internal/model/version.go:36-52 | Swapping the operands negates the comparison. |
| Versions.VersionsTransitive | backend/internal/model/version.go:36-52 | The order is transitive, strictly so if either step is strict. |
| Versions.VersionRoundTrip | backend/internal/model/version.go:58-78 | Parsing the printed form of any valid version gives it back: node ids with dashes, logical counters and physical times up to the 64-bit extremes. |
| Versions.VersionStringInjective | backend/internal/model/version.go:21-24 | Two valid versions with one text are one version, so a wheel task matches only the version it was scheduled for. |
| Versions.ParsesExactly | backend/internal/model/version.go:58-78 | A text is read as a version if and only if it is a number, a dash, a number, a dash and a node id, the first two without dashes, and they make a valid version. |
| Model.ValidationBounds | backend/internal/model/instance.go:145-201 | Of a valid mutation: the ports, generations, remaining TTLs, eviction times and update stamps it stays valid with, each exactly. |
| Model.ValidationFixesStatus | backend/internal/model/mutation.go:75-95 | Each kind of valid mutation carries its one status and reason. |
| Model.KeyTextInjective | backend/internal/model/instance.go:77-84 | "service/instance" names one key: validated identifiers hold no slash. |
| OperationWindow.WindowHoldsNewest | backend/internal/registry/registry.go:102-120 | After any history of calls, map and order list hold the same ids, none twice, at most 32, exactly the most recently logged distinct ones with their event ids (against an independent log of first occurrences). |
| OperationWindow.AgesByOne | backend/internal/registry/registry.go:109-119 | One more call moves a remembered id at most one place toward eviction and never changes its event id. |
| Registry.ShiftIn | backend/internal/registry/registry.go:114-115 | The in-place shift: the array becomes itself without its first id and with the new id last. |
| Registry.RememberOperation | backend/internal/registry/registry.go:102-120 | The array-shifting code computes the window function for every valid window. |
| Authority.IncomingOrderIsRank | backend/internal/registry/apply.go:91-132 | For all mutations and entries, compareIncoming is the order of (epoch, explicitly terminal, version, priority, event id) refined by canonical bytes, except that a lease clash (same epoch, same terminality, different lease id) always loses. |
| Authority.IncomingWinsExactly | backend/internal/registry/apply.go:91-132 | In fields: an incoming mutation wins if and only if its lease does not clash and it is ahead in (epoch, explicit termination, version, kind, event id), or equal in all of these and its canonical bytes are the later. |
| Authority.KindsBreakTies | backend/internal/registry/apply.go:221-263 | Within one lease and version, an expiry beats a heartbeat and a heartbeat a registration; within one kind the later event id wins. |
| Authority.TerminationWins | backend/internal/registry/apply.go:98-107 | Within one epoch a deregistration or demo take-down beats any record not so ended, whatever the versions and lease ids, and loses to none of the other kinds; between two of one lease and version the later event id wins. |
| Authority.RankOrder | backend/internal/registry/apply.go:221-263 | The rank comparison in fields and characters, both ways. |
| Authority.FenceOrdersAreRank | backend/internal/registry/apply.go:134-263 | The three comparators that involve a fence, separately written in the source, are each comparison of ranks. |
| Authority.RankAntisymmetric | backend/internal/registry/apply.go:221-263 | Swapping two ranks negates their comparison. |
| Authority.RankTransitive | backend/internal/registry/apply.go:221-263 | The rank order is transitive. |
| Authority.IncomingAntisymmetric | backend/internal/registry/apply.go:103-107 | Comparing two valid mutations both ways gives opposite answers if and only if their leases do not clash. |
| Authority.IncomingTransitive | backend/internal/registry/apply.go:91-132 | compareIncoming, bytes tie-break included, is transitive among valid mutations without lease clashes. |
| Authority.IncomingReflexive | backend/internal/registry/apply.go:113-131 | A mutation against its own stored form compares as a duplicate although storing added a local deadline. |
| Authority.JoinIsLeastUpperBound | backend/internal/registry/apply.go:91-153 | Ranks with a bottom form a join semilattice: least upper bound, commutative, idempotent. |
| Authority.JoinAssociative | backend/internal/registry/apply.go:91-153 | The join is associative. |
| Cells.ApplyMutationKeepsOk | backend/internal/registry/apply.go:22-87 | Apply keeps the entry/fence invariant: the fence never outranks the entry, and every evicted entry has a fence with its epoch, version, kind, event id and generation. |
| Cells.FenceAcceptedIffItOutranks | backend/internal/registry/apply.go:190-219 | ApplyFence accepts a fence if and only if it is valid and outranks everything known about the key; the cell is otherwise unchanged, so it never deletes an entry and then refuses the fence; the authority becomes the join. |
| Cells.MarkDelayedKeepsOk | backend/internal/registry/lifecycle.go:12-27 | Marking delayed keeps the invariant and the authority. |
| Cells.DelayMarksExactly | backend/internal/registry/lifecycle.go:12-27 | A held ACTIVE record of that lease and version becomes DELAYED for HEARTBEAT_DELAYED with the update time given, all else as it was; in every other case nothing changes. |
| Cells.CollectKeepsClaim | backend/internal/registry/lifecycle.go:49-74 | Collecting a tombstone keeps the invariant and the authority. |
| Cells.CollectsExactly | backend/internal/registry/lifecycle.go:51-74 | A tombstone is removed if and only if it was evicted at least the retention ago; nothing else and no fence is touched. |
| Cells.ApplyMutationJoins | backend/internal/registry/apply.go:22-87 | Applying a mutation joins its rank into the authority unless its operation id is remembered or its lease clashes, and then leaves the authority as it was. |
| Cells.AppliedWhenItOutranks | backend/internal/registry/apply.go:56-86 | A valid mutation that outranks all that is known and is not refused is Applied, with the prepared record. |
| Cells.AppliedExactly | backend/internal/registry/apply.go:22-87 | Apply answers Applied if and only if the mutation is valid, ahead of a fence held alone, and, where an entry is held, under an operation id not remembered, without a lease clash, and ahead of it in rank or in canonical bytes. |
| Cells.AppliedLeaves | backend/internal/registry/apply.go:56-86 | What an applied mutation leaves: its record, kind and event id, a deadline of now plus its remaining TTL for a live one and none for an evicted one, whose fence is then its own. |
| Cells.RefusalsShowWhatIsHeld | backend/internal/registry/apply.go:22-63 | A stale or duplicate answer shows the record held, and Invalid is answered exactly to invalid mutations. |
| Cells.SecondDelivery | backend/internal/registry/apply.go:52-63 | After two deliveries to a fresh key the authority is the first rank if the second conflicts (lease or operation id), else the join of both. |
| Convergence.RunIsPerKey | backend/internal/registry/registry.go:88-90 | Any history acts on each key separately. |
| Convergence.DeliveryRecords | backend/internal/registry/apply.go:22-87 | After one delivery every key holds the record, kind and event it held or those delivered, and the fence it held or the delivered eviction's. |
| Convergence.StepKeepsOk | backend/internal/registry/apply.go:22-219 | Every operation keeps the invariant of every key. |
| Convergence.RunKeepsOk | backend/internal/registry/apply.go:22-219 | So does every history of deliveries, fences, delay marks and collections. |
| Convergence.TwoOrdersAgree | backend/internal/registry/apply.go:52-107 | Two mutations leave a fresh key with one authority in either order if and only if they do not conflict, or have one rank: the exact reach of the operation-id and lease-id checks. |
| Convergence.ReusedOperationId | backend/internal/registry/apply.go:51-54 | Two concrete heartbeats with one operation id leave different authorities in the two orders. |
| Convergence.AuthorityIsMaximum | backend/internal/registry/apply.go:22-263 | After any history, with repetition, reordering, delay marks and collection, a key's authority is the greatest rank received for it, given one lease id per epoch and one mutation per operation id. |
| Convergence.Convergence | backend/internal/registry/apply.go:22-263 | Two registries that received the same ranks of a key, each in any order and number, hold the same authority for it; the mutations may differ in local deadline, remaining TTL and operation id. |
| Convergence.NoResurrection | backend/internal/registry/apply.go:91-153 | Once an explicit termination of lease epoch E is held, the key is not discoverable until a mutation of a later epoch is applied to it, whatever else is delivered under whatever versions, refused or not, and even after the tombstone was collected. |
| Convergence.AppliedIsNewest | backend/internal/registry/apply.go:65-86 | An applied operation is the newest in its entry's window, under its own event id. |
| Convergence.WindowIsAnswers | backend/internal/registry/apply.go:51-82 | After any history the window of a held entry is the operations answered since it was created or its lease epoch last rose, remembered one by one: reset included, and a duplicate under its original event id. |
| Convergence.HistoryWindowHoldsNewest | backend/internal/registry/apply.go:51-82 | So its ids, in order and with their events, are exactly the newest 32 distinct ones answered since then. |
| Convergence.RetryReturnsOriginalEvent | backend/internal/registry/apply.go:51-54 | A retry with the same operation id, while the lease is held and fewer than 32 other operations came between, returns the original event id and changes nothing. |
| Registry.Registry.constructor | backend/internal/registry/registry.go:61-78 | A new registry is valid and empty. |
| Registry.Registry.Apply | backend/internal/registry/apply.go:22-49 | The method computes the specification: new contents, result, and the shard revision raised by one exactly when applied. |
| Registry.Registry.ApplyToHeld | backend/internal/registry/apply.go:51-87 | The branch for a held entry, in place, computes the same specification. |
| Registry.Registry.ApplyFence | backend/internal/registry/apply.go:190-219 | The method, with its early deletion of the entry, computes the specification. |
| Registry.Registry.MarkDelayed | backend/internal/registry/lifecycle.go:12-27 | The method marks, as DELAYED for HEARTBEAT_DELAYED at the time given, if and only if the held record is ACTIVE and of that lease and version; it says whether it did, and changes nothing else. |
| Registry.Registry.GC | backend/internal/registry/lifecycle.go:51-74 | The collection loop leaves exactly the uncollectable entries, keeps all fences, lists each removed key once, and raises each shard's revision once per key removed from it. |
| Registry.Registry.MutationsForShard | backend/internal/registry/digest.go:22-61 | The loop and sort return one export for each entry of the shard, in dictionary order of their keys, or nothing for an index out of range. |
| Registry.Registry.Fences | backend/internal/registry/query.go:159-173 | The loop and sort return every fence once, in dictionary order of their keys. |
| Registry.Registry.Digest | backend/internal/registry/digest.go:93-147 | The two loops and the sort hash exactly the canonical list of the shard. |
| Registry.Registry.Digests | backend/internal/registry/digest.go:85-91 | One digest per shard, in shard order: number, revision, entry count and hash. |
| Digest.ViewListInjective | backend/internal/registry/digest.go:136-139 | Two shard views with the same pre-hash list are the same view. |
| Digest.DigestIsCanonical | backend/internal/registry/digest.go:93-147 | Two shards hash the same list if and only if they have the same map from key to (epoch, version, generation, state, kind, event id), whatever their insertion order, windows or delay marks. |
| Digest.DelayKeepsView | backend/internal/registry/lifecycle.go:12-27 | Marking delayed changes no digest. |
| Digest.ExportsInOrder | backend/internal/registry/digest.go:22-61 | The export list of a shard holds one export per entry of it, in dictionary order of the key texts. |
| Digest.FencesInOrder | backend/internal/registry/query.go:159-173 | The fence list holds every fence once, in dictionary order of the key texts. |
| Digest.DigestLinesInOrder | backend/internal/registry/digest.go:93-147 | The list hashed for a shard has one line per key known there, by entry or fence, in dictionary order. |
| Digest.RelayedRecord | backend/internal/registry/digest.go:30-54 | An exported and received record has the status and reason of its kind, whatever delay mark it carried, and otherwise every field but the deadline as it was, under the same kind and event id. |
| Digest.ExportKeepsAuthority | backend/internal/registry/digest.go:30-54 | An export is valid if and only if its kind is not DELAYED and its update stamp is not zero, and then carries exactly the entry's authority and lease. |
| Digest.RelayedDeadline | backend/internal/registry/digest.go:30-54 | Exporting a live lease and receiving it elsewhere leaves it the time it had at export (at most the longest Go duration), less than a millisecond short; it arrives dated if and only if at least one whole millisecond was left. |
| Digest.LastMillisecondIsLost | backend/internal/registry/digest.go:32-35 | A concrete lease exported in its last half millisecond arrives live and without a deadline. |
| Clock.Hlc.Now | backend/internal/clock/hlc.go:61-75 | The method computes the next value, later than the last unless the clock is saturated. |
| Clock.Hlc.Observe | backend/internal/clock/hlc.go:80-110 | A valid version is accepted if and only if it is ahead of the wall clock by at most the skew, in milliseconds, and refused outright where that sum wraps; refusals change nothing; otherwise the clock moves to the merged value. |
| Clock.AcceptedWithinSkew | backend/internal/clock/hlc.go:88-91 | The skew test in milliseconds, with the exact answer where wall clock plus skew overflows. |
| Clock.NowIsLeast | backend/internal/clock/hlc.go:61-75 | The next value is the least (physical, logical) after the last one and not before the wall clock. |
| Clock.ObserveIsLeast | backend/internal/clock/hlc.go:93-109 | The merged value is the least after both the local and the remote one and not before the wall clock. |
| Clock.NowIsLater | backend/internal/clock/hlc.go:61-75 | Now moves strictly forward unless the clock is at its last value, where it stays. |
| Clock.ObserveIsLater | backend/internal/clock/hlc.go:93-109 | Observe moves past both the local and the remote value, logical carry included. |
| Clock.RunIsMonotone | backend/internal/clock/hlc.go:59-131 | Over any run of Now and Observe with arbitrary wall clocks the clock never goes back. |
| Clock.RunIsStrict | backend/internal/clock/hlc.go:59-131 | A later call returns a strictly greater version if and only if the earlier value was not saturated. |
| Clock.RunPassesObserved | backend/internal/clock/hlc.go:77-110 | Every remote version ever accepted stays strictly behind the clock, unless that version was itself saturated. |
| Clock.CarriesOnlyWhenFull | backend/internal/clock/hlc.go:120-131 | The clock moves past wall, itself and the remote only when a logical counter is full. |
| Clock.RunStaysNearWall | backend/internal/clock/hlc.go:88-91 | Physical time is at most the largest wall reading plus the allowed skew plus one millisecond for each logical wrap. |
| Wheel.TicksAreDue | backend/internal/ttl/wheel.go:66-69 | The tick count with its 64-bit arithmetic never exceeds the true one and equals it if and only if the sum does not overflow or the deadline is within one tick. |
| Wheel.FarDeadlineWraps | backend/internal/ttl/wheel.go:66-69 | A concrete deadline 292 years ahead is placed one tick ahead. |
| Wheel.DueIsCeiling | backend/internal/ttl/wheel.go:66-69 | The true count is max(1, ceil((deadline - current) / tick)). |
| Wheel.DueIsTight | backend/internal/ttl/wheel.go:66-69 | A future deadline is reached at or after it, by less than one tick. |
| Wheel.PlacedToFire | backend/internal/ttl/wheel.go:70-71 | The slot and round computed for a count fire after exactly that many ticks. |
| Wheel.Wheel.constructor | backend/internal/ttl/wheel.go:43-61 | A new wheel is empty, with its time truncated to a whole tick. |
| Wheel.Wheel.Schedule | backend/internal/ttl/wheel.go:63-73 | Scheduling adds exactly one task to the bag of pending tasks. |
| Wheel.Wheel.Tick | backend/internal/ttl/wheel.go:85-102 | One tick delivers exactly the pending tasks whose deadline is not after the new time, however they were spread over slots and rounds; the reschedule branch is not taken unless a count overflowed. |
| Wheel.Wheel.Drain | backend/internal/ttl/wheel.go:90-101 | The loop over one slot delivers the ready tasks and puts back the others. |
| Wheel.Wheel.Pending | backend/internal/ttl/wheel.go:133-141 | The sum of slot lengths is the size of the bag. |
| Wheel.DeliveredOnceWhenDue | backend/internal/ttl/wheel.go:63-118 | In any interleaving of scheduling and ticks, a task scheduled once is delivered exactly once, at its due tick, and is pending until then. |
| Operations.NowCoversSeen | backend/internal/clock/hlc.go:59-75 | A clock that has seen a valid version issues valid versions not before it, and later unless saturated. |
| Operations.ExpiryApplies | backend/internal/service/service.go:142-151 | Expiring a live lease always applies, even when its version only ties. |
| Operations.HeartbeatApplies | backend/internal/service/operations.go:64-73 | A heartbeat on a held, not explicitly terminated lease is Applied, or Duplicate exactly when its operation id is remembered. |
| Operations.DeregisterApplies | backend/internal/service/operations.go:91-106 | So is a deregistration of a held lease, terminated or not. |
| Operations.RegisterApplies | backend/internal/service/operations.go:30-49 | A registration under an epoch not held yet is Applied if and only if that epoch is later than what is known of the key and the next generation has not wrapped to 0. |
| Operations.GenerationWraps | backend/internal/service/operations.go:36-38 | A concrete fence of the largest generation makes the next registration invalid. |
| Operations.UnseenFenceBlocksRegister | backend/internal/gossip/anti_entropy.go:157-159 | A concrete fence ahead of the clock, received without an Observe, makes a registration stale. |
| Operations.RegistrationLeaves | backend/internal/service/operations.go:30-49 | An applied registration leaves the client's record ACTIVE under a lease whose id is the fresh one and whose epoch is its version, its three times the service time, its deadline the TTL ahead, its generation one more than the entry's, else the fence's, else 1. |
| Operations.HeartbeatLeaves | backend/internal/service/operations.go:64-73 | An applied heartbeat leaves the record read, ACTIVE for HEARTBEAT_OK, under the drawn version, with new heartbeat and update times and its deadline a TTL ahead; lease, generation, endpoint and registration are as they were. |
| Operations.DeregistrationLeaves | backend/internal/service/operations.go:91-106 | An applied deregistration leaves a tombstone of the record read, evicted at the service time, for DEREGISTERED or DEMO_OFFLINE, without a deadline and with its own fence. |
| Operations.ExpiryLeaves | backend/internal/service/service.go:142-151 | So does an applied expiry, for TTL_EXPIRED. |
| Operations.TombstoneOutlivesRetention | backend/internal/registry/lifecycle.go:51-74 | Such a tombstone is collected exactly when the retention has passed since the service time of the write; its fence stays. |
| Service.RegisterIsNeverStale | backend/internal/service/operations.go:28-54 | With a clock at or above the held epochs and not saturated, and no write to the key between its read and its apply, a valid registration under a new registration id is Applied if and only if the generation has not wrapped. |
| Service.HeartbeatIsNeverStale | backend/internal/service/operations.go:56-78 | With a clock at or above the held versions and not saturated, and no write to the key between its read and its apply, a heartbeat on a held, not explicitly terminated lease is Applied or a remembered duplicate; `Races.LateHeartbeat` says what any other interleaving gives. |
| Service.DeregisterIsNeverStale | backend/internal/service/operations.go:80-111 | Likewise a deregistration of the held lease; `Races.LateDeregister` has the other interleavings. |
| Service.Service.Schedule | backend/internal/service/service.go:102-111 | A live record with a deadline goes to the wheel twice, as its delay mark a fixed time ahead and as its expiry at the deadline, with any other operations of the node between the two calls; any other record does not. |
| Leases.TasksFallDue | backend/internal/service/service.go:102-111 | A registration or heartbeat applied at a time leaves two tasks for its lease and version: the delay mark due `delayedAfter` and the expiry due `leaseTtl` from then, less the fraction of a millisecond the TTL loses. |
| Service.Service.Apply | backend/internal/service/service.go:72-92 | The registry's apply, then, its lock released and with any other operations of the node in between (among them as many as a writer waits in Publish), the two calls to the wheel, again with others in between: exactly that run of `NodeRun`, and the registry's answer. |
| Service.Service.ApplyAtOnce | backend/internal/service/service.go:72-92 | With nothing in between: one delivery, exactly the record's two tasks more on the wheel or none, and scheduled leases stay scheduled. |
| Service.NothingOwed | backend/internal/service/service.go:80-111 | The two calls to the wheel take out of the writer's hands exactly what its apply put there. |
| Service.Service.ApplyRemote | backend/internal/service/service.go:94-100 | With nothing between its observation and its apply: a version invalid or more than the skew ahead, in milliseconds, changes nothing; otherwise the mutation is merged, and the clock stays at or above every stored version (unless the remote one is saturated) and epoch (if the remote epoch is at most its version). |
| Service.Service.ReceiveFence | backend/internal/gossip/anti_entropy.go:157-159 | A fence is applied without the clock: live leases keep their tasks and stored versions stay covered; epochs stay covered if the fence's epoch was. |
| Service.Service.Register | backend/internal/service/operations.go:28-54 | With nothing written between its read and its apply: idempotent by registration id; otherwise one clock reading is epoch and version of the one mutation applied; scheduling and clock cover are kept. `Races.RacingRegistrations` has the race. |
| Service.Service.Heartbeat | backend/internal/service/operations.go:56-78 | With nothing written in between: NotFound, StaleLease, or exactly one heartbeat mutation applied under the next clock value; scheduling and clock cover are kept. |
| Service.Service.Deregister | backend/internal/service/operations.go:80-111 | With nothing written in between: NotFound, StaleLease, NotDemo, or exactly one termination applied under the next clock value; scheduling and clock cover are kept. |
| Service.Service.ReadExpired | backend/internal/service/service.go:138-141 | The read of the expiry branch: the held record if and only if it is live, due, and the task's own lease and version. |
| Service.Service.ApplyExpiry | backend/internal/service/service.go:142-151 | The apply of the expiry branch, for any record read before and any version drawn: one eviction delivered, nothing scheduled, clock cover kept. |
| Service.Service.ExpireLease | backend/internal/service/service.go:137-151 | Read, draw and apply as three regions, with any other operations of the node before the draw and before the apply: exactly that run; an expiry that does not match ends at its read. |
| Service.Service.HandleTask | backend/internal/service/service.go:119-153 | The three task kinds: collection, a delay mark, or the run of an expiry; a task whose version does not parse does nothing. |
| Service.Service.HandleTasks | backend/internal/service/service.go:113-117 | The batch in order, with any other operations of the node before and inside every task: a run of `NodeRun` that takes each task once and ends with the handler idle. |
| Service.Service.Round | backend/internal/ttl/wheel.go:79-107 | One tick, the handling of exactly what it took, and whatever others do before the next: a run that ends with the handler idle. |
| Service.Service.Interfere | backend/internal/service/service.go:72-111 | Any other locked region of the node (a registry apply, a call to the wheel, a version drawn or observed, a fence taken in, the maintenance collection) is that step of `NodeRun`. |
| Service.Service.Advance | backend/internal/ttl/wheel.go:75-108 | With any other operations of the node at every gap, inside a task too, Advance is a run of `NodeRun` and ends within one tick of the target with the handler idle; so, with service time at or past the target, every live lease is then ahead of the wheel's time, or its task was put on the wheel since the last tick or is still in a writer's hands. |
| Service.LeftAlone | backend/internal/service/service.go:138-141 | A run of Advance leaves a lease alone whose key the others never write and whose deadline is after every reading. |
| Races.AuthorityRises | backend/internal/registry/apply.go:22-219 | Whatever operations fall between a read and an apply, the authority of the key only rises. |
| Races.QuietWritesAreAtomic | backend/internal/service/service.go:137-151 | With no write to the key between a read and its apply, delay marks, collection and other keys' writes included, the mutation built from the read is the one a read at the moment of the apply would give, for registrations, heartbeats, deregistrations and expiries. |
| Races.LateExpiry | backend/internal/service/service.go:137-151 | At apply time an expiry built from an earlier read ends the live lease it finds if and only if that is the lease that was read, under a version its own passes. |
| Races.ExpiryEndsExactly | backend/internal/registry/apply.go:91-153 | Any valid TTL_EXPIRE, this node's or a peer's, with an operation id not remembered, ends the live lease it meets if and only if its epoch is later, or epoch and lease id are the lease's own and its version is not earlier: the deadline plays no part. |
| Races.EndsEarlyExactlyWhen | backend/internal/service/service.go:137-151 | For the node's own handler: with any operations between the read of a due lease and the apply, a lease not yet due is ended if and only if the cell by then holds the same lease renewed under a version drawn before the expiry's. |
| Races.QuietExpiryIsNotEarly | backend/internal/service/service.go:137-151 | With no write to the key in between, no lease is ended before its deadline. |
| Races.RenewalLosesRace | backend/internal/service/service.go:137-151 | Any heartbeat applied between the read and the apply of an expiry that draws its version later is answered as applied and then loses its renewed lease before its deadline. |
| Races.RenewedLeaseIsEvicted | backend/internal/service/service.go:137-151 | One such schedule with concrete values. |
| Races.RenewalLosesToPeer | backend/internal/service/service.go:94-100 | Any heartbeat answered as applied loses its lease before its deadline to the expiry of a peer that never received it, if that expiry draws its version no earlier: no local handler takes part. |
| Races.RenewedLeaseIsEvictedByPeer | backend/internal/service/service.go:94-100 | Two nodes and concrete values: b renews, a expires its own copy, b receives that and evicts. |
| Races.LateExpiryDischarges | backend/internal/service/service.go:137-151 | Whatever happened since the read, after the apply no lease waits for the task any more, given that a version names one epoch. |
| NodeRun.NewNodeIsSound | backend/internal/service/service.go:44-61 | An empty node satisfies the invariant. |
| NodeRun.DoKeepsSound | backend/internal/service/service.go:72-153 | Every locked region keeps: sound cells, the clock at or above every stored version, and every live lease's expiry task on the wheel, with the handler, or in the hands of a writer that has applied and not yet scheduled. |
| NodeRun.LandingKeepsScheduled | backend/internal/service/service.go:137-151 | The region that drops the handler's task: whatever fell between its read, its draw and now, every lease that waited for that task is ended or has another copy of it. |
| NodeRun.EveryLeaseHasItsTask | backend/internal/service/service.go:72-153 | So in every run, over any interleaving of applies, calls to the wheel, clock readings and observations, fences, collections, ticks and the three regions of each expiry. |
| NodeRun.RunForgetsNothing | backend/internal/ttl/wheel.go:75-108 | At every moment of every run a live lease is ahead of the wheel's time, or its task is with the handler, was scheduled since the last tick, or is in a writer's hands. |
| NodeRun.LeftAloneUntilDue | backend/internal/service/service.go:138-141 | A lease whose key no other operation writes is held unchanged through every run in which the service's clock stays before its deadline. |
| NodeRun.UnscheduledLeaseNeverExpires | backend/internal/service/service.go:80-81 | A lease applied by a writer that never comes to schedule it is held through every run that does not write its key, whatever the clocks read. |
| NodeRun.AppliedNotScheduled | backend/internal/service/service.go:73-81 | Concretely: a registration with a millisecond to live, applied and not yet scheduled, is live and past its deadline with no task on the wheel. |
| NodeRun.TakenTooSoonIsForgotten | backend/internal/service/service.go:139-141 | Over the taking of a lease's only task a node stays sound if and only if the service's clock has reached the task's deadline: a task taken earlier is dropped for good. |
| NodeRun.ObservesWithinSkew | backend/internal/clock/hlc.go:80-110 | The region that observes a remote version moves the clock past it if it is at most the skew ahead, in milliseconds, and else changes nothing. |
| NodeRun.TakenMarkDelays | backend/internal/service/service.go:132-136 | The handler's region for the delay task of a held ACTIVE lease leaves exactly that record DELAYED, at the service time. |
| NodeRun.TakenExpiryEvicts | backend/internal/service/service.go:137-151 | The three regions for the due expiry task of a held lease, with nothing in between, evict it at the service time they read, under the next clock value. |
| NodeRun.SweepsOldTombstones | backend/internal/service/service.go:119-126 | A collection removes a key's entry if and only if it was evicted at least the retention ago, keeps the others, and keeps every fence. |
| Races.LateHeartbeat | backend/internal/service/operations.go:57-73 | A heartbeat built from an earlier read is answered again if remembered, and otherwise Applied if and only if the authority is still of the epoch read, not explicitly terminated, under an earlier version, and of that lease. |
| Races.LateDeregister | backend/internal/service/operations.go:81-106 | Likewise a deregistration, for which an explicit termination in between matters only if its version is later or its lease another. |
| Races.LateRegister | backend/internal/service/operations.go:31-49 | A registration built from an earlier read is Applied if and only if its epoch is later than what is by then known and the generation read has not wrapped: a registration id stored in between plays no part. |
| Races.RacingRegistrations | backend/internal/service/operations.go:31-49 | Two registrations with one registration id that both read before either applies are both Applied, each under its own lease, the second replacing the first. |
| AntiEntropy.BuildResponse | backend/internal/gossip/anti_entropy.go:67-111 | The response is the slice of the offer from the cursor, at most 200 items, entries before fences, with the next cursor, 200 further on, if and only if items remain, and the server's own digests; `AntiEntropy.OfferedExactly` says what is on offer. |
| AntiEntropy.CollectItems | backend/internal/gossip/anti_entropy.go:72-92 | The loops collect exactly the offer, in order; an entry or fence is on offer if and only if it is held and the last hash the request gives for its shard is missing or not the server's own. |
| AntiEntropy.AllRefsAre | backend/internal/gossip/anti_entropy.go:72-92 | The offer holds an entry or fence if and only if it is held and its shard is mismatched. |
| AntiEntropy.OfferedExactly | backend/internal/gossip/anti_entropy.go:67-92 | In hashes: an entry or fence is on offer if and only if it is held and the last digest given for its shard is missing or not the hash of the server's own list. |
| AntiEntropy.EqualViewsAreOfferedNothing | backend/internal/gossip/anti_entropy.go:77-80 | A request with the digests of a registry whose shard views equal the server's is offered nothing. |
| AntiEntropy.OfferInOrder | backend/internal/gossip/anti_entropy.go:77-92 | The offer runs through the entries by shard and within it by key text, then through the fences by key text, each once. |
| AntiEntropy.FencesComeLast | backend/internal/gossip/anti_entropy.go:86-92 | No entry follows a fence in the offer. |
| AntiEntropy.ReceivedExport | backend/internal/registry/digest.go:22-61 | An exported entry reaches the other side valid, with the entry's rank and lease. |
| AntiEntropy.OfferedIsEverything | backend/internal/gossip/anti_entropy.go:67-92 | Given collision-free hashing, joining the offer is joining the server: what is not offered is already the same on both sides. |
| AntiEntropy.PullPage | backend/internal/gossip/anti_entropy.go:125-166 | One request merges exactly one page of the offer. |
| AntiEntropy.PullPages | backend/internal/gossip/anti_entropy.go:119-168 | The cursor loop ends without error and its pages concatenate to the whole offer. |
| AntiEntropy.SyncPeer | backend/internal/gossip/anti_entropy.go:113-169 | Against a server that does not change, a pull ends without error; every authority of the client is the join of both sides; everything it holds it had or the server has; scheduled leases stay scheduled, and the clock stays at or above every stored version unless the server holds a saturated one. |
| AntiEntropy.PulledBack | backend/internal/gossip/anti_entropy.go:113-169 | What was pulled can be pulled back: after a pull the client's entries export validly and agree on leases with the server's. |
| AntiEntropy.PullBothWays | backend/internal/gossip/anti_entropy.go:113-169 | Two pulls in turn, one each way, end with equal authorities for every key, the join of what both had; where every version was issued as one kind, event, generation and epoch, the digest lists of a shard then match if and only if both collected the same tombstones of it. |
| AntiEntropy.SameSummaryWhen | backend/internal/registry/digest.go:75-132 | Two registries summarise a key alike if and only if its authority, kind and generation agree and its tombstone is collected on both or neither. |
| AntiEntropy.DigestsMatchWhen | backend/internal/registry/digest.go:93-147 | With equal authorities the digest lists of a shard match if and only if kind, generation and collection agree for every key in it. |
| AntiEntropy.DigestsMatchWhenCollectedAlike | backend/internal/registry/digest.go:93-147 | With equal authorities, and everything held as it was issued, they match if and only if both sides collected the same tombstones. |
| ClusterRun.ActKeepsOk | backend/internal/service/service.go:72-100 | Every locked region of a cluster as a step of its own (an entry or a fence read, a version drawn for a write built from any earlier read, an observation, an apply, a fence sent or taken in, a delay mark, collection, an export, a clock reading for anything else) keeps: versions unique and at or below their issuer's clock, every record under its epoch's one lease, every stored version at or below its node's clock. |
| ClusterRun.RunIsOk | backend/internal/service/service.go:72-100 | So does every run from empty nodes with distinct ids. |
| ClusterRun.FreshVersion | backend/internal/clock/hlc.go:59-75 | A node that is not saturated issues a version never issued anywhere before. |
| ClusterRun.VersionsAreUnique | backend/internal/clock/hlc.go:59-75 | In any run no version is issued twice in the cluster. |
| ClusterRun.HappensBefore | backend/internal/clock/hlc.go:77-110 | What a node issues next is later than every mutation delivered to it; fences pass no clock and are not covered (`Operations.UnseenFenceBlocksRegister`). |
| ClusterRun.EpochsNameLeases | backend/internal/registry/apply.go:103-107 | In any run equal lease epochs mean one lease id, within and across registries: the hypothesis of convergence and of a pull. |
| ClusterRun.ClockCoversStore | backend/internal/service/service.go:94-100 | In any run a node that is not saturated is at or above every version it stores, and its cells are sound: what the never-stale lemmas ask for. |
| ClusterRun.HeartbeatsWin | backend/internal/service/operations.go:56-78 | In any run a heartbeat on a held, not explicitly terminated lease, with nothing in between, is Applied or a remembered duplicate. |
| ClusterRun.DeregistersWin | backend/internal/service/operations.go:80-111 | Likewise a deregistration of a held lease. |
| ClusterRun.RegistersWin | backend/internal/service/operations.go:28-54 | Likewise a registration, once the clock has reached the epochs of the fences held, unless the generation has wrapped. |
| ClusterRun.AnyNodeCanPull | backend/internal/gossip/anti_entropy.go:113-169 | In any run the structural hypotheses of a pull hold between any two nodes: sound cells, valid exports (kind DELAYED is never reached), agreement on leases. |
| ClusterRun.RunAttests | backend/internal/registry/apply.go:174-186 | In any run everything stored, sent, drafted or posted carries the kind, event, generation and epoch its version was issued with. |
| ClusterRun.AuthorityFixesPayload | backend/internal/registry/digest.go:75-132 | So in any run equal authorities mean equal kind and generation: digests of the key differ, if at all, in whether the tombstone is collected. |
| ClusterRun.ClusterDigestsMatch | backend/internal/registry/digest.go:93-147 | In any run two nodes with equal authorities have matching digest lists of a shard if and only if they collected the same tombstones of it. |
| ClusterRun.RunEnters | backend/internal/registry/apply.go:51-54 | In any run whose clients use an operation id once per instance, every mutation that carries one, drafted, sent or delivered anywhere, has the rank of that one write. |
| ClusterRun.ClusterConverges | backend/internal/registry/apply.go:22-263 | So in any such run two nodes that received the same ranks of a key, whichever way each arrived, agree on its authority. |
| Membership.MembersAntisymmetric | backend/internal/cluster/table.go:208-225 | compareMember is antisymmetric and ties exactly on equal (incarnation, version, status). |
| Membership.MembersTransitive | backend/internal/cluster/table.go:208-225 | compareMember is transitive. |
| Membership.MemberOrder | backend/internal/cluster/table.go:208-225 | In fields and characters: incarnation, then version, then DEAD over SUSPECT over ALIVE. |
| Membership.MergeTakesHigher | backend/internal/cluster/table.go:57-71 | A record of a peer replaces the one held if and only if none is held or it is the higher; an ALIVE one then sets the last contact, and latency is kept. |
| Membership.AnswerIsOneHigher | backend/internal/cluster/table.go:78-97 | The answer to an accusation: the own record ALIVE, one incarnation above it, seen at the time of the merge, under the next clock value. |
| Membership.Table.constructor | backend/internal/cluster/table.go:30-45 | The defaults for the two timeouts, and a table of itself alone. |
| Membership.Table.Merge | backend/internal/cluster/table.go:49-76 | The method computes the merge function, returns the effective record, and reports a change exactly when one was accepted. |
| Membership.Table.Refute | backend/internal/cluster/table.go:78-97 | An accusation at or above the own incarnation is answered one incarnation higher (in 64 bits) with a new clock version. |
| Membership.Table.ObserveAlive | backend/internal/cluster/table.go:99-114 | A merge as alive; then, exactly when the effective record is alive, its last-seen and last-contact times are now and its latency the one measured. |
| Membership.Table.Mark | backend/internal/cluster/table.go:121-141 | One member of a pass: marked exactly when overdue, with the next status and a clock version of this node. |
| Membership.Table.Tick | backend/internal/cluster/table.go:117-146 | One pass in any map order leaves nobody overdue and returns the records it changed. |
| Membership.TickedAt | backend/internal/cluster/table.go:117-146 | A pass leaves a member alone, or marks it once with a version later than the clock was (unless the clock saturates); self and DEAD are never touched. |
| Membership.ChangedAreTheOverdue | backend/internal/cluster/table.go:143-146 | The records handed to the hook are exactly those of the members that were overdue. |
| Membership.PassInAges | backend/internal/cluster/table.go:117-146 | In ages: after a pass a peer silent for `dead` is DEAD, an ALIVE one silent for `suspicion` SUSPECT, any other as it was; contact times never move. |
| Membership.ContactHoldsOff | backend/internal/cluster/table.go:99-146 | After a contact that leaves a peer ALIVE its contact times are that moment's, and while nothing is merged about it no run of passes before the smaller timeout has gone by changes its record. |
| Membership.AccusationIsAnswered | backend/internal/cluster/table.go:53-55 | After merging an accusation against itself the table is alive, and outranks it if and only if the accusation's incarnation is not the largest 64-bit value. |
| Membership.MergeRaisesRank | backend/internal/cluster/table.go:57-71 | A merge moves only the record it names, upward, exactly when it reports a change. |
| Membership.SelfStep | backend/internal/cluster/table.go:49-146 | A step keeps the own record alive and lowers its incarnation if and only if an accusation overflows. |
| Membership.SelfStaysAlive | backend/internal/cluster/table.go:49-146 | Over any run of merges, contacts and passes the own record stays ALIVE and its rank never falls while no accusation overflows. |
| Membership.StaleContactChangesNothing | backend/internal/cluster/table.go:99-114 | A contact that is invalid, or claims no more than what is held of a SUSPECT or DEAD peer, leaves the table as it was. |
| Membership.PeerRankIsMaximum | backend/internal/cluster/table.go:49-114 | After any run of merges and contacts a peer's rank is the largest of what was held and what was told. |
| Membership.MergeOrderIsIrrelevant | backend/internal/cluster/table.go:49-114 | Two tables told the same records of a peer in any order and number end at one rank. |
| Membership.RefutationSpreads | backend/internal/cluster/table.go:53-97 | A third table told the answer, and otherwise nothing higher than it but possibly the accusation, ends with the accused ALIVE at the answer's rank, in any order. |
| Membership.MarkStandsWhenLater | backend/internal/cluster/table.go:136-139 | A failure mark outranks the record it replaces if and only if the stamp is not before the record's version; otherwise, and only then, a copy of the old record undoes it. |
| Membership.PassRaisesRanks | backend/internal/cluster/table.go:136-139 | If the clock is at or past the version held, the mark of a pass outranks what it replaces. |
| Membership.LargestAccusationWins | backend/internal/cluster/table.go:86 | A concrete accusation at the largest incarnation is answered with incarnation 0 and outranks the answer. |
| Membership.FastPeerShedsSuspicion | backend/internal/cluster/table.go:136-139 | In a concrete table a silent peer whose clock runs ten seconds ahead is marked SUSPECT below its last record, and merging a copy of that record restores it. |
| EventRing.Ring.constructor | backend/internal/events/ring.go:31-43 | A new ring is empty, with capacity at least one. |
| EventRing.Ring.Append | backend/internal/events/ring.go:63-68 | The in-place shift: the oldest goes when full, the new event is last. |
| EventRing.Ring.Publish | backend/internal/events/ring.go:45-94 | The method computes the publish function: numbered and defaulted event, bounded log, every subscription served; as one step no send waits and no closed channel is sent to. |
| EventRing.PublishedIsNewest | backend/internal/events/ring.go:45-68 | The event published is last in the log under the next number and this stream; a given event id, origin and time are kept, and missing ones filled in; its payload is as given. |
| EventRing.SlowSubscriberIsTold | backend/internal/events/ring.go:73-86 | A subscription with a full queue ends up dropped and closed, holding one RESYNC_REQUIRED notice with the number of the event it missed. |
| EventRing.Ring.FanOut | backend/internal/events/ring.go:69-92 | In any map order each subscription with room gets the event, each full one is replaced by one notice, closed and dropped, and the count of drops is exact. |
| EventRing.Ring.Since | backend/internal/events/ring.go:96-120 | The loop with its early exit computes the page function. |
| EventRing.Ring.Recent | backend/internal/events/ring.go:181-193 | The last events up to the limit, all of them for a limit out of range. |
| EventRing.RecentReadsLog | backend/internal/events/ring.go:181-193 | Recent events are the end of the whole log: as many as asked for, or all that are kept. |
| EventRing.Ring.Prepare | backend/internal/events/ring.go:126-139 | The first critical section: expiry, or a reserved id and the events after the cursor. |
| EventRing.Ring.Attach | backend/internal/events/ring.go:141-154 | The rest: a channel holding all that was pending with room for one more, filled without waiting, registered. |
| EventRing.AttachedHasRoom | backend/internal/events/ring.go:141-154 | A new channel holds exactly what was pending, and its capacity is the largest of two, the queue size asked for, and one more than what is pending. |
| EventRing.Ring.Subscribe | backend/internal/events/ring.go:122-154 | Both sections with nothing between. |
| EventRing.Ring.Cancel | backend/internal/events/ring.go:155-165 | Closes and drops a registered subscription, once. |
| EventRing.RunHolds | backend/internal/events/ring.go:45-68 | After any run the buffer is the last min(capacity, n) of all events published, numbered from one without gaps. |
| EventRing.SinceReadsLog | backend/internal/events/ring.go:96-120 | Expiry is reported if and only if a cursor is given and the event after it was published and dropped; otherwise the page is the next stretch of the whole log. |
| EventRing.DefaultPage | backend/internal/events/ring.go:96-120 | Without a limit a page is the next 200 events of the log. |
| EventRing.PollingHasNoGaps | backend/internal/events/ring.go:96-120 | Whatever is published in between, what a polling client collected is one stretch of the log ending at its cursor, starting at the cursor it came with unless that was zero. |
| EventRing.SubscriptionFollows | backend/internal/events/ring.go:69-92 | A registered subscription delivers what it held and everything since, in order; after cancelling it is closed on a prefix, after overflow on a prefix followed by one notice numbered as the first event that found no room. |
| EventRing.SubscriptionDelivers | backend/internal/events/ring.go:122-154 | A subscription loses exactly what is published between its two critical sections: its numbers have no gap if and only if nothing was, or nothing came after. |
| EventRing.StuckExactlyWhen | backend/internal/events/ring.go:73-77 | The drain of a queue waits for ever if and only if, in the schedule, the consumer, who does not hold the lock, has had fewer turns than the events left at some length test of the publisher, and at least as many before the publisher's next turn. |
| EventRing.FullQueueCanStick | backend/internal/events/ring.go:73-77 | Every full queue can stick so, from the drain's first test on. |
| EventRing.PublishBetweenIsLost | backend/internal/events/ring.go:139-154 | A concrete event published between the two critical sections never reaches the subscription. |
| EventRing.UndisturbedDrainEnds | backend/internal/events/ring.go:73-86 | With no consumer in between, the drain ends with the notice as the only queued event. |
| Dashboard.ReduceEvents | frontend-admin/src/state/dashboard.ts:105-173 | The loop over the ordered batch computes the fold of single events, the cursor and the event list. |
| Dashboard.ReduceCard | frontend-admin/src/state/dashboard.ts:121-157 | The instance branch computes the card function: added, replaced when newer, removed, or left. |
| Dashboard.LaterCardIsShown | frontend-admin/src/state/dashboard.ts:121-141 | A card replaces the one shown if and only if its version is later in (physical, logical, collated node id); the page is else as it was. |
| Dashboard.MembersAndEdgesAreShown | frontend-admin/src/state/dashboard.ts:159-165 | One event sets exactly the node it names, and the edges it carries. |
| Dashboard.PageShowsLatest | frontend-admin/src/state/dashboard.ts:105-173 | After a batch that removes no card of a key, the card shown is the one shown before or an accepted one, and none of these has a later version. |
| Dashboard.ListStopsAt500 | frontend-admin/src/state/dashboard.ts:168-172 | Place by place: the added events latest first, then those listed before, cut at 500. |
| Dashboard.AcceptsFirstOfEach | frontend-admin/src/state/dashboard.ts:107-118 | Of every number past the cursor a batch, in any order, accepts the first event given and no other; accepted events rise strictly in number and the cursor ends at the last. |
| Dashboard.FreshAreUnlisted | frontend-admin/src/state/dashboard.ts:169-170 | An accepted event is listed again if and only if no listed event has its key. |
| Dashboard.ReduceSnapshot | frontend-admin/src/state/dashboard.ts:78-83 | The snapshot loop computes the instance map and the per-service counts. |
| Dashboard.EventKeepsCounters | frontend-admin/src/state/dashboard.ts:121-165 | One event keeps every counter equal to a recount of the instance map if and only if it does not change the service of a card under one key. |
| Dashboard.TidyNeverRenames | frontend-admin/src/state/dashboard.ts:123-125 | With slash-free service names no event does. |
| Dashboard.CountersAgree | frontend-admin/src/state/dashboard.ts:105-173 | From a consistent page, after any sequence of batches in any order with duplicates, the instance, per-status, per-service, service and node counts equal a recount. |
| Dashboard.SlashesBreakCounts | frontend-admin/src/state/dashboard.ts:123-141 | Two concrete cards whose names hold slashes share a key and put the per-service counts wrong. |
| Dashboard.ReplayIsNoOp | frontend-admin/src/state/dashboard.ts:116-118 | Anything from a batch already given changes nothing when it comes again. |
| Dashboard.EventKeyFixesNumber | frontend-admin/src/state/dashboard.ts:65-67 | Two events with one list key have one number, for boot ids without a colon. |
| Dashboard.BatchIsShown | frontend-admin/src/state/dashboard.ts:168-172 | Over a page whose listed events are at or below its cursor, everything accepted from an ordered batch is listed, newest first, 500 at most. |
| Dashboard.SplitBatch | frontend-admin/src/state/dashboard.ts:105-173 | Splitting an ordered batch at any point gives the same page. |
| Dashboard.RepeatedKeyIsCountedTwice | frontend-admin/src/state/dashboard.ts:78-83 | A snapshot that lists one instance twice counts it twice. |
| Dashboard.SnapshotCounts | frontend-admin/src/state/dashboard.ts:78-83 | The counts a snapshot starts from are a recount of its instances if and only if it lists no key twice. |

## Left out

- HTTP, UDP, WebSocket, authentication, configuration, logging, metrics, readiness, gossip target choice and fault injection: input and output around the core.
- Read-only queries (`List`, `Discover`, `Snapshot`, `Counts`, `Records`, `Export`, `Edges`, `AlivePeers`) and `Expired`, which nothing in the running system calls: plain reads.
- AntiEntropy.SyncPeer: neither side is written by others during the pull, no mutation is rejected for clock skew, and its other hypotheses are proved of every run (`ClusterRun.AnyNodeCanPull`); transport errors are left out.
- Convergence.Convergence: compares authorities, not whole records, because `MarkDelayed` rewrites a record's update time and export does not restore it.
- ClusterRun.ClusterConverges: clients use an operation id once per instance; for two mutations `Convergence.TwoOrdersAgree` says what reuse does.
- ClusterRun.ActKeepsOk: a version drawn on a saturated clock is left out; received versions pass the clock's skew test, as `ApplyRemote` demands.
- Service.Service.Advance: the service time at each handled task is at or past the target (`NodeRun.TakenTooSoonIsForgotten` says what an earlier one does); what others apply in between carries versions drawn or observed, so a remote version at the clock's very last value is left out.
- Service.Service.Schedule: a wheel is always present.
- Service.Service.Apply: the publishing of the event and the mutation sink are left out but for the time they take; `EventRing` has the ring.
- Races.LateExpiryDischarges: assumes a version names one lease epoch, which `ClusterRun.RunAttests` proves of every run; `NodeRun.LandingKeepsScheduled` does without.
- Service.RegisterIsNeverStale: assumes received fences carry epochs the clock has reached; `Operations.RegisterApplies` says exactly when a registration applies without that.
- Clock.Hlc.Observe: the constructor's check of node id and skew is left out; a skew in whole milliseconds is a natural number.
- Registry.Registry.constructor: the power-of-two check and the mask over the FNV hash are left out; any function into the shards is allowed.
- Registry.Registry.Apply: entries are values, so pointer sharing between an entry and its replacement's operation window is left out; nil and empty metadata are one value; revisions do not wrap.
- Wheel.Wheel.Tick: a nil handler and the ticker goroutine are left out.
- Identifier validation beyond emptiness, length, slashes, spaces and ASCII control characters; metadata key and value limits; unknown enumeration strings in mutations.
- Membership.PeerRankIsMaximum: runs of merges and contacts; failure marks are covered by `Membership.MarkStandsWhenLater` and `Membership.PassRaisesRanks`, because a mark may lower a rank.
- Membership.Table.Merge: the change hook is left out.
- EventRing.Ring.Publish: event numbers do not wrap at 64 bits; the clock readings inside one call are one parameter; payload copies are values.
- EventRing.PollingHasNoGaps: a client that starts at cursor zero gets one stretch too, but it starts at the oldest event kept.
- Dashboard.ReduceEvents: numbers are integers, so precision beyond 2^53 is left out, as are property names such as `__proto__` and lazy copying; CONNECTION, ERROR and LOADING only set a field.
- Dashboard.ReduceSnapshot: the event list, nodes and edges of a snapshot are copied as they come and left out.
- Dashboard.SplitBatch: listed events are at or below the cursor and boot ids hold no colon, as in the streams this system issues.
