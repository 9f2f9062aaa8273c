/** One key of the registry: its optional full entry and its optional fence, and the
    four operations that act on the pair (backend/internal/registry/apply.go and
    lifecycle.go). Everything a node knows about a key is its cell. */
module Cells {
  import opened Ordering
  import opened Versions
  import opened Model
  import opened OperationWindow
  import opened Authority

  datatype Cell = Cell(entry: Option<Entry>, fence: Option<Fence>)
  {
    predicate Discoverable() { entry.Some? && entry.value.record.Discoverable() }
  }

  const EMPTY_CELL := Cell(None, None)

  datatype ApplyResult =
    | Invalid
    | Stale(current: Option<Instance>)
    | Duplicate(held: Instance, eventId: string)
    | Applied(record: Instance, previous: Option<Instance>, eventId: string)

  // ---- Operations --------------------------------------------------------

  /** The record as stored: a live mutation's remaining TTL restarts here, in
      int64 nanoseconds; anything else has no deadline. */
  function PrepareIncoming(m: Mutation, now: Time): Instance {
    var stored := m.record.(lastRemainingTtl := m.remainingTtl);
    match m.kind
    case Register => stored.(leaseDeadline := DeadlineAfter(now, m.remainingTtl))
    case Heartbeat => stored.(leaseDeadline := DeadlineAfter(now, m.remainingTtl))
    case Delayed => stored
    case _ => stored.(leaseDeadline := ZERO_TIME)
  }

  function DeadlineAfter(now: Time, remainingTtl: int): Time {
    if remainingTtl > 0 then now + WrapInt64(remainingTtl * NANOS_PER_MILLI) else ZERO_TIME
  }

  function FenceOf(m: Mutation): Fence {
    Fence(m.record.RecordKey(), m.record.leaseEpoch, m.record.version, m.kind, m.eventId, m.record.generation)
  }

  function UpdateFence(current: Option<Fence>, m: Mutation): Option<Fence> {
    if m.record.status.EVICTED? then Some(FenceOf(m)) else current
  }

  function ApplyMutation(encode: Encoding, c: Cell, m: Mutation, now: Time): (Cell, ApplyResult) {
    if !m.Valid() then (c, Invalid)
    else
      var incoming := PrepareIncoming(m, now);
      match c.entry
      case None =>
        if c.fence.Some? && !IncomingBeatsFence(m, c.fence.value) then (c, Stale(None))
        else
          var created := Entry(incoming, m.kind, m.eventId, Remember(EMPTY_WINDOW, m.operationId, m.eventId));
          (Cell(Some(created), UpdateFence(c.fence, m)), Applied(incoming, None, m.eventId))
      case Some(e) =>
        if e.window.Knows(m.operationId) then
          (c, Duplicate(e.record, e.window.events[m.operationId]))
        else
          var decision := CompareIncoming(encode, m, e);
          if decision == 0 then
            (c.(entry := Some(e.(window := Remember(e.window, m.operationId, e.eventId)))),
             Duplicate(e.record, e.eventId))
          else if decision < 0 then (c, Stale(Some(e.record)))
          else
            // Operation ids are scoped to one lease.
            var kept := if Before(e.record.leaseEpoch, incoming.leaseEpoch) then EMPTY_WINDOW else e.window;
            var replacement := Entry(incoming, m.kind, m.eventId, Remember(kept, m.operationId, m.eventId));
            (Cell(Some(replacement), UpdateFence(c.fence, m)), Applied(incoming, Some(e.record), m.eventId))
  }

  function ApplyFence(c: Cell, f: Fence): (Cell, bool) {
    if !f.Valid() then (c, false)
    else if c.entry.Some? && CompareFenceToEntry(f, c.entry.value) <= 0 then (c, false)
    else if c.fence.Some? && CompareFences(f, c.fence.value) <= 0 then (c.(entry := None), false)
    else (Cell(None, Some(f)), true)
  }

  predicate CanMarkDelayed(c: Cell, leaseId: string, expected: Version) {
    && c.entry.Some?
    && c.entry.value.record.leaseId == leaseId
    && c.entry.value.record.version == expected
    && c.entry.value.record.status.ACTIVE?
  }

  function MarkDelayed(c: Cell, leaseId: string, expected: Version, at: Time): Cell {
    if CanMarkDelayed(c, leaseId, expected) then
      var e := c.entry.value;
      c.(entry := Some(e.(record := e.record.(status := DELAYED, reason := HEARTBEAT_DELAYED, updatedAt := at))))
    else c
  }

  predicate Collectable(e: Entry, now: Time, retention: int) {
    e.record.status.EVICTED? && e.record.evictedAt.Some? && Saturate(now - e.record.evictedAt.value) >= retention
  }

  function Collect(c: Cell, now: Time, retention: int): Cell {
    if c.entry.Some? && Collectable(c.entry.value, now, retention) then c.(entry := None) else c
  }

  // ---- Invariant ---------------------------------------------------------

  /** Status and reason are the kind's own, or the local DELAYED projection of a
      live kind. */
  predicate Agrees(kind: Kind, record: Instance) {
    || (record.status == StatusOf(kind) && record.reason == ReasonOf(kind))
    || ((kind.Register? || kind.Heartbeat?) && record.status.DELAYED? && record.reason.HEARTBEAT_DELAYED?)
  }

  ghost predicate EntryOk(e: Entry) {
    && e.record.WellFormed()
    && ValidIdentifier(e.eventId, MAX_EVENT_ID)
    && Agrees(e.kind, e.record)
    && e.window.Valid()
  }

  predicate FenceDescribes(f: Fence, e: Entry) {
    && f.leaseEpoch == e.record.leaseEpoch && f.version == e.record.version
    && f.kind == e.kind && f.eventId == e.eventId && f.generation == e.record.generation
  }

  /** The fence never outranks the entry, and every evicted entry has the fence
      that will outlive it. */
  ghost predicate CellOk(c: Cell, key: Key) {
    && (c.entry.Some? ==> EntryOk(c.entry.value) && c.entry.value.record.RecordKey() == key)
    && (c.fence.Some? ==> c.fence.value.Valid() && c.fence.value.key == key)
    && (c.entry.Some? && c.fence.Some? ==> CompareRank(FenceRank(c.fence.value), EntryRank(c.entry.value)) <= 0)
    && (c.entry.Some? && c.entry.value.record.status.EVICTED? ==>
          c.fence.Some? && FenceDescribes(c.fence.value, c.entry.value))
  }

  function CellClaim(c: Cell): Claim {
    if c.entry.Some? then Some(EntryRank(c.entry.value))
    else if c.fence.Some? then Some(FenceRank(c.fence.value))
    else None
  }

  function MutationClaim(m: Mutation): Claim { if m.Valid() then Some(MutationRank(m)) else None }

  function FenceClaim(f: Fence): Claim { if f.Valid() then Some(FenceRank(f)) else None }

  lemma StoredRank(m: Mutation, now: Time, window: Window)
    requires m.Valid() && window.Valid()
    ensures EntryOk(Entry(PrepareIncoming(m, now), m.kind, m.eventId, window))
    ensures EntryRank(Entry(PrepareIncoming(m, now), m.kind, m.eventId, window)) == MutationRank(m)
  {}

  lemma ApplyMutationKeepsOk(encode: Encoding, c: Cell, key: Key, m: Mutation, now: Time)
    requires CellOk(c, key) && m.record.RecordKey() == key
    ensures CellOk(ApplyMutation(encode, c, m, now).0, key)
  {
    if m.Valid() {
      StoredRank(m, now, EMPTY_WINDOW);
      if c.entry.None? {
        if c.fence.Some? {
          FenceOrdersAreRank(m, Stored(m), c.fence.value, c.fence.value);
          RankAntisymmetric(MutationRank(m), FenceRank(c.fence.value));
        }
      } else {
        var e := c.entry.value;
        IncomingOrderIsRank(encode, m, e);
        RankAntisymmetric(MutationRank(m), EntryRank(e));
        if CompareIncoming(encode, m, e) > 0 && c.fence.Some? {
          RankTransitive(FenceRank(c.fence.value), EntryRank(e), MutationRank(m));
        }
      }
    }
  }

  /** A fence is accepted exactly when it outranks everything known about the key,
      so it never deletes an entry and then fails to replace it. */
  lemma FenceAcceptedIffItOutranks(c: Cell, key: Key, f: Fence)
    requires CellOk(c, key) && f.key == key
    ensures ApplyFence(c, f).1 <==> f.Valid() && !Below(Some(FenceRank(f)), CellClaim(c))
    ensures ApplyFence(c, f).0 == if ApplyFence(c, f).1 then Cell(None, Some(f)) else c
    ensures CellOk(ApplyFence(c, f).0, key)
    ensures CellClaim(ApplyFence(c, f).0) == Join(CellClaim(c), FenceClaim(f))
  {
    JoinIsLeastUpperBound(CellClaim(c), FenceClaim(f));
    if c.entry.Some? {
      var e := c.entry.value;
      FenceOrdersAreRank(Mutation(e.kind, e.record, "", "", 0), e, f, f);
      if c.fence.Some? {
        var held := c.fence.value;
        FenceOrdersAreRank(Mutation(e.kind, e.record, "", "", 0), e, f, held);
        if CompareFences(f, held) <= 0 {
          RankTransitive(FenceRank(f), FenceRank(held), EntryRank(e));
        }
      }
    }
  }

  lemma MarkDelayedKeepsOk(c: Cell, key: Key, leaseId: string, expected: Version, at: Time)
    requires CellOk(c, key)
    ensures CellOk(MarkDelayed(c, leaseId, expected, at), key)
    ensures CellClaim(MarkDelayed(c, leaseId, expected, at)) == CellClaim(c)
  {}

  /** Collection forgets the tombstone's payload, never its authority. */
  lemma CollectKeepsClaim(c: Cell, key: Key, now: Time, retention: int)
    requires CellOk(c, key)
    ensures CellOk(Collect(c, now, retention), key)
    ensures CellClaim(Collect(c, now, retention)) == CellClaim(c)
  {}

  // ---- When a mutation takes effect --------------------------------------

  /** The only ways a valid mutation can fail to raise the key to its own rank. */
  predicate Refused(c: Cell, m: Mutation) {
    && c.entry.Some?
    && (c.entry.value.window.Knows(m.operationId) || LeaseClash(m, c.entry.value))
  }

  /** Applying is joining, for all cells and mutations, unless the mutation is
      refused; a refused mutation leaves the authority as it was. */
  lemma ApplyMutationJoins(encode: Encoding, c: Cell, key: Key, m: Mutation, now: Time)
    requires CellOk(c, key) && m.record.RecordKey() == key
    ensures CellClaim(ApplyMutation(encode, c, m, now).0) ==
            if Refused(c, m) then CellClaim(c) else Join(CellClaim(c), MutationClaim(m))
  {
    JoinIsLeastUpperBound(CellClaim(c), MutationClaim(m));
    if m.Valid() {
      StoredRank(m, now, EMPTY_WINDOW);
      if c.entry.None? {
        if c.fence.Some? {
          FenceOrdersAreRank(m, Stored(m), c.fence.value, c.fence.value);
          RankAntisymmetric(MutationRank(m), FenceRank(c.fence.value));
        }
      } else {
        IncomingOrderIsRank(encode, m, c.entry.value);
        RankAntisymmetric(MutationRank(m), EntryRank(c.entry.value));
      }
    }
  }

  /** Hence a valid mutation that outranks all that is known is applied, unless it
      is refused. */
  lemma AppliedWhenItOutranks(encode: Encoding, c: Cell, key: Key, m: Mutation, now: Time)
    requires CellOk(c, key) && m.record.RecordKey() == key && m.Valid()
    requires !Below(MutationClaim(m), CellClaim(c)) && !Refused(c, m)
    ensures ApplyMutation(encode, c, m, now).1.Applied?
    ensures ApplyMutation(encode, c, m, now).1.record == PrepareIncoming(m, now)
  {
    if c.entry.None? {
      if c.fence.Some? {
        FenceOrdersAreRank(m, Stored(m), c.fence.value, c.fence.value);
      }
    } else {
      IncomingOrderIsRank(encode, m, c.entry.value);
    }
  }

  /** The second of two mutations delivered to a fresh key is refused. */
  predicate Conflict(first: Mutation, second: Mutation) {
    LeaseClash(second, Stored(first)) || (second.operationId != "" && second.operationId == first.operationId)
  }

  lemma SecondDelivery(encode: Encoding, key: Key, a: Mutation, b: Mutation, now: Time)
    requires a.Valid() && b.Valid() && a.record.RecordKey() == key == b.record.RecordKey()
    ensures CellClaim(ApplyMutation(encode, ApplyMutation(encode, EMPTY_CELL, a, now).0, b, now).0)
            == if Conflict(a, b) then MutationClaim(a) else Join(MutationClaim(a), MutationClaim(b))
  {
    var held := ApplyMutation(encode, EMPTY_CELL, a, now).0;
    ApplyMutationKeepsOk(encode, EMPTY_CELL, key, a, now);
    StoredRank(a, now, EMPTY_WINDOW);
    ApplyMutationJoins(encode, held, key, b, now);
  }

  // ---- What an operation does, in fields ---------------------------------

  /** Which mutations take effect: the valid ones that meet nothing, or outrank the fence
      left; or, of an entry, are not a known operation, do not clash and win. */
  lemma AppliedExactly(encode: Encoding, c: Cell, m: Mutation, now: Time)
    ensures ApplyMutation(encode, c, m, now).1.Applied? <==>
              && m.Valid()
              && (c.entry.None? && c.fence.Some? ==> Lower(FenceRank(c.fence.value), MutationRank(m)))
              && (c.entry.Some? ==>
                    && !c.entry.value.window.Knows(m.operationId) && !LeaseClash(m, c.entry.value)
                    && (|| Lower(EntryRank(c.entry.value), MutationRank(m))
                        || (&& EntryRank(c.entry.value) == MutationRank(m)
                            && Precedes(encode(c.entry.value.record.Wire()), encode(m.record.Wire())))))
  {
    if c.entry.Some? {
      IncomingWinsExactly(encode, m, c.entry.value);
    } else if c.fence.Some? {
      FenceOrdersAreRank(m, Stored(m), c.fence.value, c.fence.value);
      RankOrder(MutationRank(m), FenceRank(c.fence.value));
    }
  }

  /** What an applied mutation leaves: its own record, kind and event; the lease of a live
      one runs from the apply, and one without remaining time has no deadline. */
  lemma AppliedLeaves(encode: Encoding, c: Cell, m: Mutation, now: Time)
    requires ApplyMutation(encode, c, m, now).1.Applied?
    ensures var (after, r) := ApplyMutation(encode, c, m, now);
            && after.entry.Some? && after.entry.value.record == r.record && r.record.Wire() == m.record.Wire()
            && after.entry.value.kind == m.kind && after.entry.value.eventId == m.eventId == r.eventId
            && r.previous == (if c.entry.Some? then Some(c.entry.value.record) else None)
            && r.record.lastRemainingTtl == m.remainingTtl
            && ((m.kind.Register? || m.kind.Heartbeat?) && 0 < m.remainingTtl <= MAX_INT64 / 1_000_000 ==>
                  r.record.leaseDeadline == now + m.remainingTtl * 1_000_000)
            && ((m.kind.Register? || m.kind.Heartbeat?) && m.remainingTtl == 0 ==> !r.record.HasDeadline())
            && (m.record.status.EVICTED? ==> !r.record.HasDeadline() && after.fence == Some(FenceOf(m)))
            && (!m.record.status.EVICTED? ==> after.fence == c.fence)
  {}

  /** What the registry answers otherwise: the record it holds. */
  lemma RefusalsShowWhatIsHeld(encode: Encoding, c: Cell, m: Mutation, now: Time)
    ensures var r := ApplyMutation(encode, c, m, now).1;
            && (r.Stale? ==> r.current == if c.entry.Some? then Some(c.entry.value.record) else None)
            && (r.Duplicate? ==> c.entry.Some? && r.held == c.entry.value.record)
            && (r.Invalid? <==> !m.Valid())
  {}

  /** What a delay mark does: the ACTIVE record of that lease and version becomes DELAYED as
      of `at`, in nothing else changed; anything else is left as it is. */
  lemma DelayMarksExactly(c: Cell, leaseId: string, expected: Version, at: Time)
    ensures var after := MarkDelayed(c, leaseId, expected, at);
            if c.entry.Some? && c.entry.value.record.leaseId == leaseId && c.entry.value.record.version == expected
               && c.entry.value.record.status.ACTIVE?
            then
              var held := c.entry.value.record;
              && after.fence == c.fence && after.entry.Some?
              && after.entry.value.record.status.DELAYED? && after.entry.value.record.reason.HEARTBEAT_DELAYED?
              && after.entry.value.record.updatedAt == at
              && after.entry.value.record.(status := held.status, reason := held.reason, updatedAt := held.updatedAt)
                 == held
              && after.entry.value.(record := held) == c.entry.value
            else after == c
  {}

  /** What collection removes: a tombstone, once it is at least `retention` old. The fence
      stays. */
  lemma CollectsExactly(c: Cell, now: Time, retention: int)
    requires 0 < retention <= MAX_INT64
    ensures var after := Collect(c, now, retention);
            && after.fence == c.fence
            && (after.entry == c.entry || after.entry.None?)
            && (c.entry.Some? ==>
                  (after.entry.None? <==>
                     && c.entry.value.record.status.EVICTED? && c.entry.value.record.evictedAt.Some?
                     && now - c.entry.value.record.evictedAt.value >= retention))
  {}
}
