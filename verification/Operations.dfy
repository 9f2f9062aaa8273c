/** The mutations a node writes itself (backend/internal/service/operations.go and
    the expiry branch of service.go), as functions of what it holds and reads. */
module Operations {
  import opened Ordering
  import opened Versions
  import opened Model
  import opened OperationWindow
  import opened Authority
  import opened Cells
  import opened Clock

  /** What one call reads from the outside: the HLC's wall clock, the service and
      registry clocks, and two fresh random identifiers. */
  datatype Reading = Reading(wall: Int64, service: Time, registry: Time, leaseId: string, eventId: string)
  {
    predicate Ok() {
      && service != ZERO_TIME
      && ValidIdentifier(leaseId, MAX_IDENTIFIER) && ValidIdentifier(eventId, MAX_EVENT_ID)
    }
  }

  datatype Request = Request(service: string, instanceId: string, registrationId: string, endpoint: Endpoint,
                             demo: bool)
  {
    function RequestKey(): Key { Key(service, instanceId) }

    predicate Valid() {
      RequestKey().Valid() && ValidIdentifier(registrationId, MAX_IDENTIFIER) && endpoint.Valid()
    }
  }

  /** One more than the generation held, or than the fence's; 1 for a new key. */
  function NextGeneration(c: Cell): UInt64 {
    if c.entry.Some? then WrapUInt64(c.entry.value.record.generation + 1)
    else if c.fence.Some? then WrapUInt64(c.fence.value.generation + 1)
    else 1
  }

  function RegisterMutation(c: Cell, request: Request, nodeId: string, epoch: Version, ttl: int, r: Reading): Mutation {
    Mutation(Register,
             Instance(request.service, request.instanceId, request.registrationId, request.endpoint,
                      ACTIVE, REGISTERED, NextGeneration(c), r.leaseId, epoch, epoch, nodeId,
                      r.service, r.service, r.service, None, request.demo, ZERO_TIME, 0),
             r.eventId, "", ttl)
  }

  function HeartbeatMutation(held: Instance, nodeId: string, version: Version, operationId: string, ttl: int,
                             r: Reading): Mutation {
    Mutation(Heartbeat,
             held.(status := ACTIVE, reason := HEARTBEAT_OK, version := version, originNodeId := nodeId,
                   lastHeartbeatAt := r.service, updatedAt := r.service, evictedAt := None),
             r.eventId, operationId, ttl)
  }

  /** An eviction of the held record under a new version. */
  function Evicted(held: Instance, reason: Reason, nodeId: string, version: Version, r: Reading): Instance {
    held.(status := EVICTED, reason := reason, version := version, originNodeId := nodeId,
          updatedAt := r.service, evictedAt := Some(r.service), leaseDeadline := ZERO_TIME)
  }

  function DeregisterMutation(held: Instance, nodeId: string, version: Version, operationId: string, demo: bool,
                              r: Reading): Mutation {
    var kind := if demo then DemoOffline else Deregister;
    Mutation(kind, Evicted(held, ReasonOf(kind), nodeId, version, r), r.eventId, operationId, 0)
  }

  function ExpireMutation(held: Instance, nodeId: string, version: Version, r: Reading): Mutation {
    Mutation(TtlExpire, Evicted(held, TTL_EXPIRED, nodeId, version, r), r.eventId, "", 0)
  }

  predicate ValidOperationId(id: string) { id == "" || ValidIdentifier(id, MAX_IDENTIFIER) }

  // ---- Local writes take effect ------------------------------------------

  /** A version the local clock issued after seeing `seen`. */
  predicate IssuedAfter(nodeId: string, seen: Version, version: Version) {
    ValidIdentifier(nodeId, MAX_IDENTIFIER) && version.origin == nodeId && AtMost(seen, version)
  }

  /** A clock that has seen a valid version issues valid versions not before it. */
  lemma NowCoversSeen(nodeId: string, last: Version, wall: Int64, seen: Version)
    requires ValidIdentifier(nodeId, MAX_IDENTIFIER) && Own(nodeId, last)
    requires ValidVersion(seen) && AtMost(seen, last)
    ensures IssuedAfter(nodeId, seen, NowAfter(nodeId, last, wall)) && ValidVersion(NowAfter(nodeId, last, wall))
    ensures !Saturated(last) ==> Before(seen, NowAfter(nodeId, last, wall))
  {
    NowIsLater(nodeId, last, wall);
    VersionsTransitive(seen, last, NowAfter(nodeId, last, wall));
  }

  /** Expiring a live lease always applies, even when its version only ties. */
  lemma ExpiryApplies(encode: Encoding, c: Cell, key: Key, nodeId: string, version: Version, r: Reading, now: Time)
    requires CellOk(c, key) && c.Discoverable() && r.Ok() && ValidVersion(version)
    requires IssuedAfter(nodeId, c.entry.value.record.version, version)
    ensures var m := ExpireMutation(c.entry.value.record, nodeId, version, r);
            m.Valid() && ApplyMutation(encode, c, m, now).1
                == Applied(PrepareIncoming(m, now), Some(c.entry.value.record), m.eventId)
  {
    var m := ExpireMutation(c.entry.value.record, nodeId, version, r);
    IncomingOrderIsRank(encode, m, c.entry.value);
    VersionsAntisymmetric(version, c.entry.value.record.version);
  }

  /** A heartbeat on a held lease that is not explicitly terminated applies, unless
      its operation id is remembered. */
  lemma HeartbeatApplies(encode: Encoding, c: Cell, key: Key, nodeId: string, version: Version, operationId: string,
                         ttl: int, r: Reading, now: Time)
    requires CellOk(c, key) && c.entry.Some? && r.Ok() && ttl >= 0 && ValidVersion(version)
    requires !c.entry.value.record.ExplicitlyTerminal() && ValidOperationId(operationId)
    requires IssuedAfter(nodeId, c.entry.value.record.version, version) && version != c.entry.value.record.version
    ensures var result := ApplyMutation(encode, c,
                                        HeartbeatMutation(c.entry.value.record, nodeId, version, operationId, ttl, r),
                                            now).1;
            if c.entry.value.window.Knows(operationId) then result.Duplicate? else result.Applied?
  {
    var m := HeartbeatMutation(c.entry.value.record, nodeId, version, operationId, ttl, r);
    IncomingOrderIsRank(encode, m, c.entry.value);
    VersionsAntisymmetric(version, c.entry.value.record.version);
  }

  /** So does a deregistration of a held lease, even of one already terminated. */
  lemma DeregisterApplies(encode: Encoding, c: Cell, key: Key, nodeId: string, version: Version, operationId: string,
                          demo: bool, r: Reading, now: Time)
    requires CellOk(c, key) && c.entry.Some? && r.Ok() && ValidVersion(version) && ValidOperationId(operationId)
    requires IssuedAfter(nodeId, c.entry.value.record.version, version) && version != c.entry.value.record.version
    ensures var result := ApplyMutation(encode, c,
                                        DeregisterMutation(c.entry.value.record, nodeId, version, operationId, demo,
                                                           r), now).1;
            if c.entry.value.window.Knows(operationId) then result.Duplicate? else result.Applied?
  {
    var m := DeregisterMutation(c.entry.value.record, nodeId, version, operationId, demo, r);
    IncomingOrderIsRank(encode, m, c.entry.value);
    VersionsAntisymmetric(version, c.entry.value.record.version);
  }

  function EpochOf(c: Cell): Version
    requires CellClaim(c).Some?
  {
    CellClaim(c).value.epoch
  }

  /** A registration under an epoch not held yet applies if and only if that epoch is
      later than what is known of the key, and the generation counter has not wrapped
      to the forbidden value 0. */
  lemma RegisterApplies(encode: Encoding, c: Cell, key: Key, request: Request, nodeId: string, epoch: Version,
                        ttl: int, r: Reading, now: Time)
    requires CellOk(c, key) && request.RequestKey() == key && request.Valid() && r.Ok() && ttl >= 0
    requires ValidVersion(epoch) && ValidIdentifier(nodeId, MAX_IDENTIFIER)
    requires CellClaim(c).Some? ==> EpochOf(c) != epoch
    ensures ApplyMutation(encode, c, RegisterMutation(c, request, nodeId, epoch, ttl, r), now).1.Applied?
            <==> NextGeneration(c) != 0 && (CellClaim(c).None? || Before(EpochOf(c), epoch))
  {
    var m := RegisterMutation(c, request, nodeId, epoch, ttl, r);
    if CellClaim(c).Some? {
      VersionsAntisymmetric(EpochOf(c), epoch);
    }
    if m.Valid() && (CellClaim(c).None? || Before(EpochOf(c), epoch)) {
      AppliedWhenItOutranks(encode, c, key, m, now);
    }
  }

  /** A fence reaches the registry without passing the clock, so its epoch may be ahead
      of the clock; a registration is then stale until the clock catches up. */
  lemma UnseenFenceBlocksRegister(encode: Encoding)
    ensures var fence := Fence(Key("s", "i"), Version(20_000, 0, "b"), Version(20_001, 0, "b"), TtlExpire, "e", 1);
            var c := Cell(None, Some(fence));
            var request := Request("s", "i", "reg", Endpoint("h", 80, "http", map[]), false);
            var r := Reading(10_001, 0, 0, "lease", "evt");
            var epoch := NowAfter("a", Version(10_000, 0, "a"), r.wall);
            && CellOk(c, fence.key)
            && ApplyMutation(encode, c, RegisterMutation(c, request, "a", epoch, 30_000, r), 0).1 == Stale(None)
  {
    var fence := Fence(Key("s", "i"), Version(20_000, 0, "b"), Version(20_001, 0, "b"), TtlExpire, "e", 1);
    var c := Cell(None, Some(fence));
    var request := Request("s", "i", "reg", Endpoint("h", 80, "http", map[]), false);
    var r := Reading(10_001, 0, 0, "lease", "evt");
    RegisterApplies(encode, c, fence.key, request, "a", NowAfter("a", Version(10_000, 0, "a"), r.wall), 30_000, r, 0);
  }

  /** Once a generation is the largest number of 64 bits, the next is 0 and refused. */
  lemma GenerationWraps(encode: Encoding)
    ensures var fence := Fence(Key("s", "i"), Version(1, 0, "b"), Version(2, 0, "b"), TtlExpire, "e", MAX_UINT64);
            var c := Cell(None, Some(fence));
            var request := Request("s", "i", "reg", Endpoint("h", 80, "http", map[]), false);
            var r := Reading(10_001, 0, 0, "lease", "evt");
            && CellOk(c, fence.key)
            && ApplyMutation(encode, c, RegisterMutation(c, request, "a", Version(10_001, 0, "a"), 30_000, r), 0).1
               == ApplyResult.Invalid
  {}

  // ---- What a client's write leaves behind -------------------------------

  /** A registration that is applied: the request's data under a new lease whose epoch is its
      version, of the next generation, live for the time to live from the apply on. */
  lemma RegistrationLeaves(encode: Encoding, c: Cell, key: Key, request: Request, nodeId: string, epoch: Version,
                           ttl: int, r: Reading, now: Time)
    requires request.RequestKey() == key && 0 < ttl <= MAX_INT64 / 1_000_000
    requires ApplyMutation(encode, c, RegisterMutation(c, request, nodeId, epoch, ttl, r), now).1.Applied?
    ensures var after := ApplyMutation(encode, c, RegisterMutation(c, request, nodeId, epoch, ttl, r), now).0;
            && after.entry.Some? && after.entry.value.kind.Register? && after.entry.value.eventId == r.eventId
            && var record := after.entry.value.record;
            && record.RecordKey() == key && record.registrationId == request.registrationId
            && record.endpoint == request.endpoint && record.demo == request.demo
            && record.status.ACTIVE? && record.reason.REGISTERED? && record.evictedAt.None?
            && record.leaseId == r.leaseId && record.leaseEpoch == record.version == epoch
               && record.originNodeId == nodeId
            && record.registeredAt == record.lastHeartbeatAt == record.updatedAt == r.service
            && record.leaseDeadline == now + ttl * 1_000_000
            && (c.entry.Some? ==> record.generation == c.entry.value.record.generation + 1)
            && (c.entry.None? && c.fence.Some? ==> record.generation == c.fence.value.generation + 1)
            && (c.entry.None? && c.fence.None? ==> record.generation == 1)
  {
    AppliedLeaves(encode, c, RegisterMutation(c, request, nodeId, epoch, ttl, r), now);
    WrappedOrNext(c);
  }

  /** A generation that is not 0 did not wrap. */
  lemma WrappedOrNext(c: Cell)
    requires NextGeneration(c) != 0
    ensures c.entry.Some? ==> NextGeneration(c) == c.entry.value.record.generation + 1
    ensures c.entry.None? && c.fence.Some? ==> NextGeneration(c) == c.fence.value.generation + 1
    ensures c.entry.None? && c.fence.None? ==> NextGeneration(c) == 1
  {}

  /** The part of a record a heartbeat or an eviction leaves as it was. */
  predicate SameIdentity(a: Instance, b: Instance) {
    && a.RecordKey() == b.RecordKey() && a.registrationId == b.registrationId && a.endpoint == b.endpoint
    && a.demo == b.demo && a.generation == b.generation && a.leaseId == b.leaseId && a.leaseEpoch == b.leaseEpoch
    && a.registeredAt == b.registeredAt
  }

  /** A heartbeat that is applied: the same lease, ACTIVE again, heard from at the write, live
      for the time to live from the apply on. */
  lemma HeartbeatLeaves(encode: Encoding, c: Cell, held: Instance, nodeId: string, version: Version,
                        operationId: string, ttl: int, r: Reading, now: Time)
    requires 0 < ttl <= MAX_INT64 / 1_000_000
    requires ApplyMutation(encode, c, HeartbeatMutation(held, nodeId, version, operationId, ttl, r), now).1.Applied?
    ensures var after := ApplyMutation(encode, c, HeartbeatMutation(held, nodeId, version, operationId, ttl, r), now).0;
            && after.entry.Some? && after.entry.value.kind.Heartbeat? && after.entry.value.eventId == r.eventId
            && var record := after.entry.value.record;
            && SameIdentity(record, held)
            && record.status.ACTIVE? && record.reason.HEARTBEAT_OK? && record.evictedAt.None?
            && record.version == version && record.originNodeId == nodeId
            && record.lastHeartbeatAt == record.updatedAt == r.service
            && record.leaseDeadline == now + ttl * 1_000_000
  {
    AppliedLeaves(encode, c, HeartbeatMutation(held, nodeId, version, operationId, ttl, r), now);
  }

  /** The record evicted by a write of `r`, and the fence it leaves. */
  predicate EvictedBy(after: Cell, held: Instance, nodeId: string, version: Version, r: Reading) {
    && after.entry.Some? && after.entry.value.eventId == r.eventId
    && var record := after.entry.value.record;
    && SameIdentity(record, held) && record.lastHeartbeatAt == held.lastHeartbeatAt
    && record.status.EVICTED? && record.version == version && record.originNodeId == nodeId
    && record.evictedAt == Some(r.service) && record.updatedAt == r.service && !record.HasDeadline()
    && after.fence == Some(Fence(held.RecordKey(), held.leaseEpoch, version, after.entry.value.kind, r.eventId,
                                 held.generation))
  }

  /** A deregistration that is applied: the record is evicted as of the write, as a demo
      shutdown or not, and a fence of its version is left. */
  lemma DeregistrationLeaves(encode: Encoding, c: Cell, held: Instance, nodeId: string, version: Version,
                             operationId: string, demo: bool, r: Reading, now: Time)
    requires ApplyMutation(encode, c, DeregisterMutation(held, nodeId, version, operationId, demo, r), now).1.Applied?
    ensures var after := ApplyMutation(encode, c, DeregisterMutation(held, nodeId, version, operationId, demo, r),
                                       now).0;
            && EvictedBy(after, held, nodeId, version, r)
            && (if demo then after.entry.value.kind.DemoOffline? && after.entry.value.record.reason.DEMO_OFFLINE?
                else after.entry.value.kind.Deregister? && after.entry.value.record.reason.DEREGISTERED?)
  {
    AppliedLeaves(encode, c, DeregisterMutation(held, nodeId, version, operationId, demo, r), now);
  }

  lemma ExpiryLeaves(encode: Encoding, c: Cell, held: Instance, nodeId: string, version: Version, r: Reading, now: Time)
    requires ApplyMutation(encode, c, ExpireMutation(held, nodeId, version, r), now).1.Applied?
    ensures var after := ApplyMutation(encode, c, ExpireMutation(held, nodeId, version, r), now).0;
            && EvictedBy(after, held, nodeId, version, r)
            && after.entry.value.kind.TtlExpire? && after.entry.value.record.reason.TTL_EXPIRED?
  {
    AppliedLeaves(encode, c, ExpireMutation(held, nodeId, version, r), now);
  }

  /** A tombstone is kept for the retention from the write that evicted it, and its fence
      for good. */
  lemma TombstoneOutlivesRetention(after: Cell, held: Instance, nodeId: string, version: Version, r: Reading,
                                   now: Time, retention: int)
    requires EvictedBy(after, held, nodeId, version, r) && 0 < retention <= MAX_INT64
    ensures Collect(after, now, retention).entry.None? <==> now - r.service >= retention
    ensures Collect(after, now, retention).fence == after.fence
  {
    CollectsExactly(after, now, retention);
  }
}
