/** What lies between a service's read of a record and its apply. The two take the
    registry's lock separately, and the clock's in between, so any operation may fall
    there: here is what a write built from an earlier read then does. */
module Races {
  import opened Ordering
  import opened Versions
  import opened Model
  import opened OperationWindow
  import opened Authority
  import opened Cells
  import opened Convergence
  import opened Digest
  import opened Operations
  import opened Clock
  import opened Wheel
  import opened Leases

  const SECOND := 1_000_000_000

  // ---- What may happen in between ----------------------------------------

  /** Authority only rises, whatever the operations. */
  lemma {:induction false} AuthorityRises(encode: Encoding, c: Cell, key: Key, ops: seq<Op>)
    requires CellOk(c, key)
    ensures CellOk(RunCell(encode, c, key, ops), key)
    ensures Below(CellClaim(c), CellClaim(RunCell(encode, c, key, ops)))
  {
    if ops == [] {
      JoinIsLeastUpperBound(CellClaim(c), CellClaim(c));
    } else {
      var init, op := ops[..|ops| - 1], ops[|ops| - 1];
      var before := RunCell(encode, c, key, init);
      AuthorityRises(encode, c, key, init);
      StepRises(encode, before, key, op);
      BelowTransitive(CellClaim(c), CellClaim(before), CellClaim(RunCell(encode, c, key, ops)));
    }
  }

  lemma StepRises(encode: Encoding, c: Cell, key: Key, op: Op)
    requires CellOk(c, key)
    ensures CellOk(StepCell(encode, c, key, op), key)
    ensures Below(CellClaim(c), CellClaim(StepCell(encode, c, key, op)))
  {
    StepCellKeepsOk(encode, c, key, op);
    JoinIsLeastUpperBound(CellClaim(c), CellClaim(c));
    match op
    case Deliver(m, now) =>
      if m.record.RecordKey() == key {
        ApplyMutationJoins(encode, c, key, m, now);
        JoinIsLeastUpperBound(CellClaim(c), MutationClaim(m));
      }
    case DeliverFence(f) =>
      if f.key == key {
        FenceAcceptedIffItOutranks(c, key, f);
        JoinIsLeastUpperBound(CellClaim(c), FenceClaim(f));
      }
    case Delay(k, leaseId, expected, at) => MarkDelayedKeepsOk(c, key, leaseId, expected, at);
    case Gc(now, retention) => CollectKeepsClaim(c, key, now, retention);
  }

  /** No write to the key: other keys' writes, delay marks and collection only. */
  predicate Quiet(key: Key, ops: seq<Op>) {
    forall op :: op in ops ==>
          (op.Deliver? ==> op.m.record.RecordKey() != key) && (op.DeliverFence? ==> op.f.key != key)
  }

  /** The record but for what a delay mark overwrites. */
  function Unmarked(record: Instance): Instance { record.(status := ACTIVE, reason := REGISTERED, updatedAt := 0) }

  /** What a quiet stretch can do to an entry: mark it delayed, or collect its tombstone. */
  predicate StillThere(c: Cell, later: Cell) {
    && later.fence == c.fence
    && (later.entry.Some? ==>
          && c.entry.Some? && Unmarked(later.entry.value.record) == Unmarked(c.entry.value.record)
          && later.entry.value.kind == c.entry.value.kind && later.entry.value.eventId == c.entry.value.eventId
          && later.entry.value.window == c.entry.value.window)
    && (later.entry.None? && c.entry.Some? ==> c.entry.value.record.status.EVICTED?)
    && (later.Discoverable() <==> c.Discoverable())
  }

  lemma {:induction false} QuietKeepsEntry(encode: Encoding, c: Cell, key: Key, ops: seq<Op>)
    requires Quiet(key, ops)
    ensures StillThere(c, RunCell(encode, c, key, ops))
  {
    if ops != [] {
      assert ops[|ops| - 1] in ops && Quiet(key, ops[..|ops| - 1]);
      QuietKeepsEntry(encode, c, key, ops[..|ops| - 1]);
    }
  }

  /** So a write whose read is followed by a quiet stretch is the write one would build
      from a read at the moment of the apply: read, draw and apply are then as one step. */
  lemma QuietWritesAreAtomic(encode: Encoding, c: Cell, key: Key, ops: seq<Op>, request: Request, nodeId: string,
                             version: Version,
                             operationId: string, demo: bool, ttl: int, r: Reading)
    requires CellOk(c, key) && Quiet(key, ops)
    ensures var later := RunCell(encode, c, key, ops);
            && RegisterMutation(c, request, nodeId, version, ttl, r)
               == RegisterMutation(later, request, nodeId, version, ttl, r)
            && (c.entry.Some? && later.entry.Some? ==>
                  var was, now := c.entry.value.record, later.entry.value.record;
                  && HeartbeatMutation(was, nodeId, version, operationId, ttl, r)
                     == HeartbeatMutation(now, nodeId, version, operationId, ttl, r)
                  && DeregisterMutation(was, nodeId, version, operationId, demo, r)
                     == DeregisterMutation(now, nodeId, version, operationId, demo, r)
                  && ExpireMutation(was, nodeId, version, r) == ExpireMutation(now, nodeId, version, r))
            && (c.Discoverable() ==> later.Discoverable())
  {
    QuietKeepsEntry(encode, c, key, ops);
  }

  // ---- Expiry ------------------------------------------------------------

  /** The cell holds a live lease that is not due. */
  predicate NotDue(c: Cell, now: Time) {
    c.entry.Some? && Leased(c.entry.value.record) && c.entry.value.record.leaseDeadline > now
  }

  /** Applying an expiry built from `read` ends a lease that is not due. */
  predicate EndsEarly(encode: Encoding, read: Instance, c: Cell, nodeId: string, version: Version, r: Reading,
                      now: Time) {
    NotDue(c, r.service) && !ApplyMutation(encode, c, ExpireMutation(read, nodeId, version, r), now).0.Discoverable()
  }

  /** The cell still holds the lease that was read, under a version the expiry's passes. */
  predicate Renewed(read: Instance, c: Cell, version: Version) {
    && c.entry.Some?
    && c.entry.value.record.leaseEpoch == read.leaseEpoch && c.entry.value.record.leaseId == read.leaseId
    && AtMost(c.entry.value.record.version, version)
  }

  /** What an expiry must carry to end the lease held. */
  predicate Outdates(m: Mutation, held: Instance) {
    || Before(held.leaseEpoch, m.record.leaseEpoch)
    || (m.record.leaseEpoch == held.leaseEpoch && m.record.leaseId == held.leaseId
        && AtMost(held.version, m.record.version))
  }

  /** Any valid expiry, this node's or a peer's: it ends the live lease it meets if and
      only if its epoch is later, or it is of that lease and no earlier in version. The
      deadline of the lease plays no part. */
  lemma ExpiryEndsExactly(encode: Encoding, c: Cell, key: Key, m: Mutation, now: Time)
    requires CellOk(c, key) && c.Discoverable()
    requires m.Valid() && m.kind.TtlExpire? && m.record.RecordKey() == key && !c.entry.value.window.Knows(m.operationId)
    ensures !ApplyMutation(encode, c, m, now).0.Discoverable() <==> Outdates(m, c.entry.value.record)
  {
    IncomingOrderIsRank(encode, m, c.entry.value);
    VersionsAntisymmetric(m.record.leaseEpoch, c.entry.value.record.leaseEpoch);
    VersionsAntisymmetric(m.record.version, c.entry.value.record.version);
  }

  lemma ReadExpiryIsValid(held: Instance, nodeId: string, version: Version, r: Reading)
    requires held.WellFormed() && r.Ok() && ValidVersion(version) && ValidIdentifier(nodeId, MAX_IDENTIFIER)
    ensures var m := ExpireMutation(held, nodeId, version, r);
            m.Valid() && m.record.RecordKey() == held.RecordKey() && OverWire(m).Valid()
  {}

  /** At apply time, whatever happened since the read: an expiry ends the lease it finds
      if and only if that is the lease that was read, under a version its own passes. */
  lemma LateExpiry(encode: Encoding, c: Cell, later: Cell, key: Key, nodeId: string, version: Version, r: Reading,
                   now: Time)
    requires CellOk(c, key) && c.Discoverable() && CellOk(later, key) && Below(CellClaim(c), CellClaim(later))
    requires r.Ok() && ValidVersion(version) && ValidIdentifier(nodeId, MAX_IDENTIFIER) && later.Discoverable()
    ensures !ApplyMutation(encode, later, ExpireMutation(c.entry.value.record, nodeId, version, r),
                           now).0.Discoverable()
            <==> Renewed(c.entry.value.record, later, version)
  {
    var m := ExpireMutation(c.entry.value.record, nodeId, version, r);
    ReadExpiryIsValid(c.entry.value.record, nodeId, version, r);
    ExpiryEndsExactly(encode, later, key, m, now);
    VersionsAntisymmetric(c.entry.value.record.leaseEpoch, later.entry.value.record.leaseEpoch);
  }

  /** The eviction of a lease before its deadline by the node's own handler, exactly: with
      any operations between the read of a due lease and the apply, a lease not yet due is
      ended if and only if the cell by then holds the same lease, renewed, under a version
      drawn before the expiry's own. */
  lemma EndsEarlyExactlyWhen(encode: Encoding, c: Cell, key: Key, ops: seq<Op>, nodeId: string, version: Version,
                             r: Reading, now: Time)
    requires CellOk(c, key) && c.Discoverable()
    requires r.Ok() && ValidVersion(version) && ValidIdentifier(nodeId, MAX_IDENTIFIER)
    ensures var later := RunCell(encode, c, key, ops);
            EndsEarly(encode, c.entry.value.record, later, nodeId, version, r, now)
            <==> NotDue(later, r.service) && Renewed(c.entry.value.record, later, version)
  {
    var later := RunCell(encode, c, key, ops);
    AuthorityRises(encode, c, key, ops);
    if later.Discoverable() {
      LateExpiry(encode, c, later, key, nodeId, version, r, now);
    }
  }

  /** With no write to the key in between, a lease that was due when read is due when
      ended: no lease is ended early. */
  lemma QuietExpiryIsNotEarly(encode: Encoding, c: Cell, key: Key, ops: seq<Op>, nodeId: string, version: Version,
                              r: Reading, now: Time)
    requires c.Discoverable() && c.entry.value.record.leaseDeadline <= r.service && Quiet(key, ops)
    ensures !EndsEarly(encode, c.entry.value.record, RunCell(encode, c, key, ops), nodeId, version, r, now)
  {
    QuietKeepsEntry(encode, c, key, ops);
  }

  /** But any heartbeat that slips in, and is answered as applied, loses to the expiry:
      its renewed lease is ended before the deadline it was given. */
  lemma RenewalLosesRace(encode: Encoding, c: Cell, key: Key, nodeId: string, operationId: string, ttl: int,
                         first: Version, second: Version, beat: Reading, expiry: Reading, now: Time)
    requires CellOk(c, key) && c.Discoverable() && ValidIdentifier(nodeId, MAX_IDENTIFIER)
    requires beat.Ok() && expiry.Ok() && ValidOperationId(operationId) && !c.entry.value.window.Knows(operationId)
    requires ValidVersion(first) && ValidVersion(second) && first.origin == nodeId
    requires Before(c.entry.value.record.version, first) && AtMost(first, second)
    requires 0 < ttl <= MAX_INT64 / NANOS_PER_MILLI
    requires beat.registry > ZERO_TIME && beat.registry + ttl * NANOS_PER_MILLI > expiry.service
    ensures var m := HeartbeatMutation(c.entry.value.record, nodeId, first, operationId, ttl, beat);
            var (renewed, answer) := ApplyMutation(encode, c, m, beat.registry);
            answer.Applied? && EndsEarly(encode, c.entry.value.record, renewed, nodeId, second, expiry, now)
  {
    var held := c.entry.value.record;
    var m := HeartbeatMutation(held, nodeId, first, operationId, ttl, beat);
    VersionsAntisymmetric(held.version, first);
    HeartbeatApplies(encode, c, key, nodeId, first, operationId, ttl, beat, beat.registry);
    var renewed := ApplyMutation(encode, c, m, beat.registry).0;
    ApplyMutationKeepsOk(encode, c, key, m, beat.registry);
    ApplyMutationJoins(encode, c, key, m, beat.registry);
    JoinIsLeastUpperBound(CellClaim(c), MutationClaim(m));
    LateExpiry(encode, c, renewed, key, nodeId, second, expiry, now);
  }

  /** Nor does it take a race inside a node. A peer that still holds the lease without its
      latest heartbeat expires its own copy; that expiry, received here, ends the renewed
      lease before its deadline if it was drawn no earlier than the heartbeat. */
  lemma RenewalLosesToPeer(encode: Encoding, c: Cell, copy: Cell, key: Key, nodeId: string, peer: string,
                           operationId: string,
                           ttl: int, first: Version, second: Version, beat: Reading, expiry: Reading, now: Time,
                               later: Time)
    requires CellOk(c, key) && c.Discoverable() && ValidIdentifier(nodeId, MAX_IDENTIFIER)
    requires CellOk(copy, key) && copy.Discoverable() && ValidIdentifier(peer, MAX_IDENTIFIER)
    requires copy.entry.value.record.leaseEpoch == c.entry.value.record.leaseEpoch
    requires copy.entry.value.record.leaseId == c.entry.value.record.leaseId
    requires beat.Ok() && expiry.Ok() && ValidOperationId(operationId) && !c.entry.value.window.Knows(operationId)
    requires ValidVersion(first) && ValidVersion(second) && first.origin == nodeId
    requires Before(c.entry.value.record.version, first) && AtMost(first, second)
    requires 0 < ttl <= MAX_INT64 / NANOS_PER_MILLI
    requires beat.registry > ZERO_TIME && beat.registry + ttl * NANOS_PER_MILLI > later
    ensures var m := HeartbeatMutation(c.entry.value.record, nodeId, first, operationId, ttl, beat);
            var (renewed, answer) := ApplyMutation(encode, c, m, beat.registry);
            var gone := OverWire(ExpireMutation(copy.entry.value.record, peer, second, expiry));
            && answer.Applied? && NotDue(renewed, later)
            && !ApplyMutation(encode, renewed, gone, now).0.Discoverable()
  {
    var held := c.entry.value.record;
    var m := HeartbeatMutation(held, nodeId, first, operationId, ttl, beat);
    VersionsAntisymmetric(held.version, first);
    HeartbeatApplies(encode, c, key, nodeId, first, operationId, ttl, beat, beat.registry);
    ApplyMutationKeepsOk(encode, c, key, m, beat.registry);
    var gone := ExpireMutation(copy.entry.value.record, peer, second, expiry);
    ReadExpiryIsValid(copy.entry.value.record, peer, second, expiry);
    ExpiryEndsExactly(encode, ApplyMutation(encode, c, m, beat.registry).0, key, OverWire(gone), now);
  }

  /** Whatever happened since the read, applying the expiry leaves no lease waiting for
      the task: it is ended, or was already replaced. (A version names one epoch, as it
      does wherever versions are issued once.) */
  lemma LateExpiryDischarges(encode: Encoding, c: Cell, later: Cell, key: Key, nodeId: string, version: Version,
                             r: Reading, now: Time)
    requires CellOk(c, key) && c.Discoverable() && CellOk(later, key) && Below(CellClaim(c), CellClaim(later))
    requires r.Ok() && ValidVersion(version) && ValidIdentifier(nodeId, MAX_IDENTIFIER)
    requires AtMost(c.entry.value.record.version, version)
    requires later.entry.Some? && later.entry.value.record.version == c.entry.value.record.version
             ==> later.entry.value.record.leaseEpoch == c.entry.value.record.leaseEpoch
    ensures var after := ApplyMutation(encode, later, ExpireMutation(c.entry.value.record, nodeId, version, r), now).0;
            after.entry.Some? && Leased(after.entry.value.record)
            ==> ExpiryTask(after.entry.value.record) != ExpiryTask(c.entry.value.record)
  {
    var held := c.entry.value.record;
    var m := ExpireMutation(held, nodeId, version, r);
    var after := ApplyMutation(encode, later, m, now).0;
    ReadExpiryIsValid(held, nodeId, version, r);
    ApplyMutationKeepsOk(encode, later, key, m, now);
    if after.entry.Some? && Leased(after.entry.value.record)
       && ExpiryTask(after.entry.value.record) == ExpiryTask(held) {
      VersionStringInjective(after.entry.value.record.version, held.version);
      LateExpiry(encode, c, later, key, nodeId, version, r, now);
    }
  }

  // ---- Client writes -----------------------------------------------------

  /** A heartbeat built from an earlier read: a remembered operation is answered again;
      otherwise it applies if and only if the key's authority is still of the epoch that
      was read, not explicitly terminated, under an earlier version, and of that lease. */
  lemma LateHeartbeat(encode: Encoding, c: Cell, later: Cell, key: Key, nodeId: string, version: Version,
                      operationId: string,
                      ttl: int, r: Reading, now: Time)
    requires CellOk(c, key) && c.entry.Some? && !c.entry.value.record.ExplicitlyTerminal()
    requires CellOk(later, key) && Below(CellClaim(c), CellClaim(later)) && CellClaim(later).value.version != version
    requires r.Ok() && ttl >= 0 && ValidVersion(version) && ValidIdentifier(nodeId, MAX_IDENTIFIER)
             && ValidOperationId(operationId)
    ensures var read, rank := c.entry.value.record, CellClaim(later).value;
            var result := ApplyMutation(encode, later, HeartbeatMutation(read, nodeId, version, operationId, ttl, r),
                                        now).1;
            if later.entry.Some? && later.entry.value.window.Knows(operationId) then result.Duplicate?
            else result.Applied? <==>
                 && rank.epoch == read.leaseEpoch && !rank.terminal && Before(rank.version, version)
                 && (later.entry.Some? ==> later.entry.value.record.leaseId == read.leaseId)
  {
    var read, rank := c.entry.value.record, CellClaim(later).value;
    var m := HeartbeatMutation(read, nodeId, version, operationId, ttl, r);
    assert m.Valid();
    VersionsAntisymmetric(read.leaseEpoch, rank.epoch);
    VersionsAntisymmetric(version, rank.version);
    if later.entry.Some? {
      IncomingOrderIsRank(encode, m, later.entry.value);
    } else {
      FenceOrdersAreRank(m, Stored(m), later.fence.value, later.fence.value);
    }
  }

  /** A deregistration built from an earlier read applies if and only if the authority is
      still of the epoch read and, when already explicitly terminated, under an earlier
      version and of that lease. */
  lemma LateDeregister(encode: Encoding, c: Cell, later: Cell, key: Key, nodeId: string, version: Version,
                       operationId: string,
                       demo: bool, r: Reading, now: Time)
    requires CellOk(c, key) && c.entry.Some?
    requires CellOk(later, key) && Below(CellClaim(c), CellClaim(later)) && CellClaim(later).value.version != version
    requires r.Ok() && ValidVersion(version) && ValidIdentifier(nodeId, MAX_IDENTIFIER) && ValidOperationId(operationId)
    ensures var read, rank := c.entry.value.record, CellClaim(later).value;
            var result := ApplyMutation(encode, later, DeregisterMutation(read, nodeId, version, operationId, demo, r),
                                        now).1;
            if later.entry.Some? && later.entry.value.window.Knows(operationId) then result.Duplicate?
            else result.Applied? <==>
                 && rank.epoch == read.leaseEpoch
                 && (rank.terminal ==>
                       && Before(rank.version, version)
                       && (later.entry.Some? ==> later.entry.value.record.leaseId == read.leaseId))
  {
    var read, rank := c.entry.value.record, CellClaim(later).value;
    var m := DeregisterMutation(read, nodeId, version, operationId, demo, r);
    assert m.Valid();
    VersionsAntisymmetric(read.leaseEpoch, rank.epoch);
    VersionsAntisymmetric(version, rank.version);
    if later.entry.Some? {
      IncomingOrderIsRank(encode, m, later.entry.value);
    } else {
      FenceOrdersAreRank(m, Stored(m), later.fence.value, later.fence.value);
    }
  }

  /** A registration built from an earlier read applies if and only if its epoch is later
      than what is by then known of the key and the generation it read has not wrapped:
      whether the registration id is by then held plays no part. */
  lemma LateRegister(encode: Encoding, c: Cell, later: Cell, key: Key, request: Request, nodeId: string, epoch: Version,
                     ttl: int, r: Reading, now: Time)
    requires CellOk(c, key) && CellOk(later, key) && request.RequestKey() == key && request.Valid()
    requires r.Ok() && ttl >= 0 && ValidVersion(epoch) && ValidIdentifier(nodeId, MAX_IDENTIFIER)
    requires CellClaim(later).Some? ==> EpochOf(later) != epoch
    ensures ApplyMutation(encode, later, RegisterMutation(c, request, nodeId, epoch, ttl, r), now).1.Applied?
            <==> NextGeneration(c) != 0 && (CellClaim(later).None? || Before(EpochOf(later), epoch))
  {
    var m := RegisterMutation(c, request, nodeId, epoch, ttl, r);
    if CellClaim(later).Some? {
      VersionsAntisymmetric(EpochOf(later), epoch);
    }
    if m.Valid() && (CellClaim(later).None? || Before(EpochOf(later), epoch)) {
      AppliedWhenItOutranks(encode, later, key, m, now);
    }
  }

  /** Hence registering is not idempotent under a race: two calls with one registration
      id that both read before either applies are both applied, each under its own
      lease, and the first caller's lease is gone. */
  lemma RacingRegistrations(encode: Encoding, c: Cell, key: Key, request: Request, nodeId: string,
                            first: Version, second: Version, ttl: int, r: Reading, q: Reading)
    requires CellOk(c, key) && request.RequestKey() == key && request.Valid() && NextGeneration(c) != 0
    requires r.Ok() && q.Ok() && ttl >= 0 && ValidIdentifier(nodeId, MAX_IDENTIFIER) && ValidVersion(first)
             && ValidVersion(second)
    requires (CellClaim(c).Some? ==> Before(EpochOf(c), first)) && Before(first, second)
    ensures var (once, answer) := ApplyMutation(encode, c, RegisterMutation(c, request, nodeId, first, ttl, r),
                                                r.registry);
            var (twice, other) := ApplyMutation(encode, once, RegisterMutation(c, request, nodeId, second, ttl, q),
                                                q.registry);
            && answer.Applied? && once.entry.value.record.registrationId == request.registrationId
            && once.entry.value.record.leaseId == r.leaseId
            && other.Applied? && twice.entry.value.record.leaseId == q.leaseId
  {
    var m := RegisterMutation(c, request, nodeId, first, ttl, r);
    VersionsAntisymmetric(first, second);
    LateRegister(encode, c, c, key, request, nodeId, first, ttl, r, r.registry);
    var once := ApplyMutation(encode, c, m, r.registry).0;
    ApplyMutationKeepsOk(encode, c, key, m, r.registry);
    LateRegister(encode, c, once, key, request, nodeId, second, ttl, q, q.registry);
  }

  // One schedule in full: a lease due at 30 s, read by the expiry handler; a heartbeat
  // applied at 30.5 s, which promises 60.5 s; the expiry, applied next, ends it.

  const DUE_RECORD := Instance("s", "i", "reg", Endpoint("h", 80, "http", map[]), ACTIVE, REGISTERED, 1, "lease",
                               Version(1, 0, "a"), Version(1, 0, "a"), "a", 0, 0, 0, None, false, 30 * SECOND, 30_000)

  const DUE_CELL := Cell(Some(Entry(DUE_RECORD, Register, "evt-1", EMPTY_WINDOW)), None)

  const BEAT := Reading(30_500, 30_500 * NANOS_PER_MILLI, 30_500 * NANOS_PER_MILLI, "x", "evt-2")

  const EXPIRY := Reading(30_501, 30 * SECOND, 30_501 * NANOS_PER_MILLI, "x", "evt-3")

  lemma DueCellIsSound()
    ensures CellOk(DUE_CELL, Key("s", "i")) && DUE_CELL.Discoverable() && DUE_RECORD.leaseDeadline <= EXPIRY.service
  {}

  lemma RenewedLeaseIsEvicted(encode: Encoding)
    ensures var beat := HeartbeatMutation(DUE_RECORD, "a", Version(30_500, 0, "a"), "op", 30_000, BEAT);
            var expiry := ExpireMutation(DUE_RECORD, "a", Version(30_501, 0, "a"), EXPIRY);
            var (renewed, answer) := ApplyMutation(encode, DUE_CELL, beat, BEAT.registry);
            && answer.Applied? && NotDue(renewed, EXPIRY.service)
            && !ApplyMutation(encode, renewed, expiry, EXPIRY.registry).0.Discoverable()
  {
    DueCellIsSound();
    RenewalLosesRace(encode, DUE_CELL, Key("s", "i"), "a", "op", 30_000, Version(30_500, 0, "a"),
                     Version(30_501, 0, "a"), BEAT, EXPIRY, EXPIRY.registry);
  }

  // And across two nodes: b renews its copy; a, which never received the heartbeat,
  // expires its own; b receives that.

  lemma RenewedLeaseIsEvictedByPeer(encode: Encoding)
    ensures var beat := HeartbeatMutation(DUE_RECORD, "b", Version(30_500, 0, "b"), "op", 30_000, BEAT);
            var expiry := ExpireMutation(DUE_RECORD, "a", Version(30_501, 0, "a"), EXPIRY);
            var (renewed, answer) := ApplyMutation(encode, DUE_CELL, beat, BEAT.registry);
            && answer.Applied? && NotDue(renewed, EXPIRY.service)
            && !ApplyMutation(encode, DUE_CELL, expiry, EXPIRY.registry).0.Discoverable()
            && !ApplyMutation(encode, renewed, OverWire(expiry), EXPIRY.registry).0.Discoverable()
  {
    var expiry := ExpireMutation(DUE_RECORD, "a", Version(30_501, 0, "a"), EXPIRY);
    DueCellIsSound();
    ReadExpiryIsValid(DUE_RECORD, "a", Version(30_501, 0, "a"), EXPIRY);
    ExpiryEndsExactly(encode, DUE_CELL, Key("s", "i"), expiry, EXPIRY.registry);
    RenewalLosesToPeer(encode, DUE_CELL, DUE_CELL, Key("s", "i"), "b", "a", "op", 30_000, Version(30_500, 0, "b"),
                       Version(30_501, 0, "a"), BEAT, EXPIRY, EXPIRY.registry, EXPIRY.service);
  }
}
