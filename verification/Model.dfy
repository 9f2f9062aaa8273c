/** Records, mutations and fences as they travel between nodes, with the checks
    every receiver makes (backend/internal/model). */
module Model {
  import opened Ordering
  import opened Versions

  /** Nanoseconds since the Unix epoch. */
  type Time = int

  /** Go's time.Time{}, the value IsZero recognises (1 January of year 1). */
  const ZERO_TIME: Time := -62_135_596_800_000_000_000

  const NANOS_PER_MILLI: int := 1_000_000

  datatype Kind = Register | Heartbeat | Delayed | TtlExpire | Deregister | DemoOffline
  {
    predicate ExplicitlyTerminal() { Deregister? || DemoOffline? }

    function Priority(): int {
      match this
      case Deregister => 4
      case DemoOffline => 4
      case TtlExpire => 3
      case Heartbeat => 2
      case Register => 1
      case Delayed => 0
    }
  }

  datatype Status = ACTIVE | DELAYED | EVICTED

  datatype Reason = REGISTERED | HEARTBEAT_OK | HEARTBEAT_DELAYED
                  | TTL_EXPIRED | DEREGISTERED | DEMO_OFFLINE
  {
    predicate Terminal() { DEREGISTERED? || DEMO_OFFLINE? }
  }

  datatype Key = Key(service: string, instanceId: string)
  {
    function Text(): string { service + "/" + instanceId }

    predicate Valid() {
      ValidIdentifier(service, MAX_IDENTIFIER) && ValidIdentifier(instanceId, MAX_IDENTIFIER)
    }
  }

  /** The part of a record that no decision in the registry looks at. */
  datatype Endpoint = Endpoint(host: string, port: int, protocol: string, metadata: map<string, string>)
  {
    predicate Valid() {
      && host != "" && |host| <= 255
      && (forall c :: c in host ==> IdentifierChar(c))
      && 1 <= port <= 65535
      && (protocol == "http" || protocol == "https" || protocol == "grpc" || protocol == "tcp")
      && |metadata| <= 32
    }
  }

  datatype Instance = Instance(
    service: string, instanceId: string, registrationId: string, endpoint: Endpoint,
    status: Status, reason: Reason, generation: UInt64, leaseId: string,
    leaseEpoch: Version, version: Version, originNodeId: string,
    registeredAt: Time, lastHeartbeatAt: Time, updatedAt: Time, evictedAt: Option<Time>,
    demo: bool, leaseDeadline: Time, lastRemainingTtl: int)
  {
    function RecordKey(): Key { Key(service, instanceId) }

    predicate Discoverable() { status.ACTIVE? || status.DELAYED? }

    predicate ExplicitlyTerminal() { status.EVICTED? && reason.Terminal() }

    predicate HasDeadline() { leaseDeadline != ZERO_TIME }

    /** What JSON carries: the two fields tagged "-" are dropped. */
    function Wire(): Instance { this.(leaseDeadline := ZERO_TIME, lastRemainingTtl := 0) }

    predicate Valid() { WellFormed() && Stamped() }

    predicate Stamped() { updatedAt != ZERO_TIME }

    predicate WellFormed() {
      && RecordKey().Valid()
      && ValidIdentifier(registrationId, MAX_IDENTIFIER)
      && endpoint.Valid()
      && generation != 0
      && ValidIdentifier(leaseId, MAX_IDENTIFIER)
      && ValidVersion(leaseEpoch)
      && ValidVersion(version)
      && ValidIdentifier(originNodeId, MAX_IDENTIFIER)
      && registeredAt != ZERO_TIME && lastHeartbeatAt != ZERO_TIME
      && (status.EVICTED? <==> evictedAt.Some?)
    }
  }

  datatype Mutation = Mutation(kind: Kind, record: Instance, eventId: string, operationId: string, remainingTtl: int)
  {
    predicate Valid() {
      && ValidIdentifier(eventId, MAX_EVENT_ID)
      && (operationId == "" || ValidIdentifier(operationId, MAX_IDENTIFIER))
      && remainingTtl >= 0
      && record.Valid()
      && record.status == StatusOf(kind) && record.reason == ReasonOf(kind)
    }
  }

  function StatusOf(kind: Kind): Status {
    match kind
    case Register => ACTIVE
    case Heartbeat => ACTIVE
    case Delayed => DELAYED
    case _ => EVICTED
  }

  function ReasonOf(kind: Kind): Reason {
    match kind
    case Register => REGISTERED
    case Heartbeat => HEARTBEAT_OK
    case Delayed => HEARTBEAT_DELAYED
    case TtlExpire => TTL_EXPIRED
    case Deregister => DEREGISTERED
    case DemoOffline => DEMO_OFFLINE
  }

  /** A compact tombstone: what remains of an evicted record after collection. */
  datatype Fence = Fence(key: Key, leaseEpoch: Version, version: Version, kind: Kind, eventId: string,
                         generation: UInt64)
  {
    predicate Valid() {
      && key.Valid() && ValidVersion(leaseEpoch) && ValidVersion(version)
      && eventId != "" && generation != 0
      && (kind == TtlExpire || kind.ExplicitlyTerminal())
    }
  }

  lemma SlashEndsService(a: Key, b: Key)
    requires '/' !in b.service
    requires a.Text() == b.Text()
    ensures |b.service| <= |a.service|
  {
    assert a.Text()[|a.service|] == '/';
    assert forall i :: 0 <= i < |b.service| ==> b.Text()[i] == b.service[i] && b.service[i] in b.service;
  }

  /** Identifiers hold no slash, so "service/instance" names one key. */
  lemma KeyTextInjective(a: Key, b: Key)
    requires a.Valid() && b.Valid()
    requires a.Text() == b.Text()
    ensures a == b
  {
    SlashEndsService(a, b);
    SlashEndsService(b, a);
    var n := |a.service|;
    assert a.Text()[..n] == a.service && b.Text()[..n] == b.service;
    assert a.Text()[n + 1..] == a.instanceId && b.Text()[n + 1..] == b.instanceId;
  }

  // ---- What validation turns on ------------------------------------------

  /** Of a mutation that is otherwise valid: which ports, generations, remaining times and
      eviction times it may carry. */
  lemma ValidationBounds(m: Mutation, port: int, generation: UInt64, ttl: int, evictedAt: Option<Time>, stamp: Time)
    requires m.Valid()
    ensures m.(record := m.record.(endpoint := m.record.endpoint.(port := port))).Valid() <==> 1 <= port <= 65535
    ensures m.(record := m.record.(generation := generation)).Valid() <==> generation >= 1
    ensures m.(remainingTtl := ttl).Valid() <==> ttl >= 0
    ensures m.(record := m.record.(evictedAt := evictedAt)).Valid() <==> (m.record.status.EVICTED? <==> evictedAt.Some?)
    ensures m.(record := m.record.(updatedAt := stamp)).Valid() <==> stamp != ZERO_TIME
  {}

  /** Each kind comes with one status and one reason. */
  lemma ValidationFixesStatus(m: Mutation)
    requires m.Valid()
    ensures m.kind.Register? ==> m.record.status.ACTIVE? && m.record.reason.REGISTERED?
    ensures m.kind.Heartbeat? ==> m.record.status.ACTIVE? && m.record.reason.HEARTBEAT_OK?
    ensures m.kind.Delayed? ==> m.record.status.DELAYED? && m.record.reason.HEARTBEAT_DELAYED?
    ensures m.kind.TtlExpire? ==> m.record.status.EVICTED? && m.record.reason.TTL_EXPIRED?
    ensures m.kind.Deregister? ==> m.record.status.EVICTED? && m.record.reason.DEREGISTERED?
    ensures m.kind.DemoOffline? ==> m.record.status.EVICTED? && m.record.reason.DEMO_OFFLINE?
  {}

  lemma KeyTextExample()
    ensures Key("orders", "i-1").Text() == "orders/i-1"
  {}
}
