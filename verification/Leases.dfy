/** Leases and the tasks that end them (backend/internal/service/service.go): what an
    apply puts on the wheel, when an expiry task matches, and what each registry
    operation does to the leases held and to the versions the clock must cover. */
module Leases {
  import opened Ordering
  import opened Versions
  import opened Model
  import opened OperationWindow
  import opened Authority
  import opened Cells
  import opened Convergence
  import opened Operations
  import opened Clock
  import opened Wheel

  predicate Leased(record: Instance) { record.Discoverable() && record.HasDeadline() }

  function ExpiryTask(record: Instance): Task {
    Task(ExpireTask, record.service, record.instanceId, record.leaseId, VersionString(record.version),
         record.leaseDeadline)
  }

  /** The delay mark comes a fixed time before the expiry. */
  function DelayMark(record: Instance, ahead: int): Task {
    ExpiryTask(record).(kind := DelayTask, deadline := record.leaseDeadline - ahead)
  }

  /** What an apply is to put on the wheel. */
  function TasksFor(r: ApplyResult, ahead: int): multiset<Task> {
    if r.Applied? && Leased(r.record) then multiset{DelayMark(r.record, ahead), ExpiryTask(r.record)} else multiset{}
  }

  function TaskKey(task: Task): Key { Key(task.service, task.instanceId) }

  /** Every live lease with a deadline has its own expiry task in the pool. */
  ghost predicate AllScheduled(s: Store, pool: multiset<Task>) {
    forall k :: k in s.entries && Leased(s.entries[k].record) ==> ExpiryTask(s.entries[k].record) in pool
  }

  ghost predicate VersionsCovered(s: Store, last: Version) {
    forall k :: k in s.entries ==> AtMost(s.entries[k].record.version, last)
  }

  ghost predicate EpochsCovered(s: Store, last: Version) {
    && (forall k :: k in s.entries ==> AtMost(s.entries[k].record.leaseEpoch, last))
    && (forall k :: k in s.fences ==> AtMost(s.fences[k].leaseEpoch, last))
  }

  // ---- Deliveries --------------------------------------------------------

  /** A delivery leaves a key's record alone, or is answered as applied with the record
      it left. */
  lemma DeliveryAnswers(encode: Encoding, c: Cell, m: Mutation, now: Time)
    ensures var (after, r) := ApplyMutation(encode, c, m, now);
            after.entry.Some? ==>
              || (c.entry.Some? && after.entry.value.record == c.entry.value.record)
              || (r.Applied? && r.record == after.entry.value.record)
  {}

  lemma DeliveryKeepsScheduled(encode: Encoding, s: Store, m: Mutation, now: Time, pool: multiset<Task>,
                               after: multiset<Task>)
    requires AllScheduled(s, pool) && pool <= after
    requires var r := ApplyMutation(encode, CellAt(s, m.record.RecordKey()), m, now).1;
             r.Applied? && Leased(r.record) ==> ExpiryTask(r.record) in after
    ensures AllScheduled(Step(encode, s, Deliver(m, now)), after)
  {
    var key, t := m.record.RecordKey(), Step(encode, s, Deliver(m, now));
    DeliveryAnswers(encode, CellAt(s, key), m, now);
    forall k | k in t.entries && Leased(t.entries[k].record)
      ensures ExpiryTask(t.entries[k].record) in after
    {
      StepIsPerKey(encode, s, Deliver(m, now), k);
      assert CellAt(t, k) == StepCell(encode, CellAt(s, k), k, Deliver(m, now));
    }
  }

  lemma DeliveryKeepsVersions(encode: Encoding, s: Store, m: Mutation, now: Time, last: Version)
    requires VersionsCovered(s, last) && AtMost(m.record.version, last)
    ensures VersionsCovered(Step(encode, s, Deliver(m, now)), last)
  {
    var t := Step(encode, s, Deliver(m, now));
    forall k | k in t.entries
      ensures AtMost(t.entries[k].record.version, last)
    {
      DeliveryRecords(encode, s, m, now, k);
    }
  }

  lemma DeliveryKeepsEpochs(encode: Encoding, s: Store, m: Mutation, now: Time, last: Version)
    requires EpochsCovered(s, last) && AtMost(m.record.leaseEpoch, last)
    ensures EpochsCovered(Step(encode, s, Deliver(m, now)), last)
  {
    var t := Step(encode, s, Deliver(m, now));
    forall k
      ensures k in t.entries ==> AtMost(t.entries[k].record.leaseEpoch, last)
      ensures k in t.fences ==> AtMost(t.fences[k].leaseEpoch, last)
    {
      DeliveryRecords(encode, s, m, now, k);
    }
  }

  lemma DeliveryKeepsCovered(encode: Encoding, s: Store, m: Mutation, now: Time, last: Version, next: Version)
    requires AtMost(last, next)
    ensures VersionsCovered(s, last) && AtMost(m.record.version, next)
            ==> VersionsCovered(Step(encode, s, Deliver(m, now)), next)
    ensures EpochsCovered(s, last) && AtMost(m.record.leaseEpoch, next)
            ==> EpochsCovered(Step(encode, s, Deliver(m, now)), next)
  {
    ClockMovesOn(s, last, next);
    if VersionsCovered(s, last) && AtMost(m.record.version, next) {
      DeliveryKeepsVersions(encode, s, m, now, next);
    }
    if EpochsCovered(s, last) && AtMost(m.record.leaseEpoch, next) {
      DeliveryKeepsEpochs(encode, s, m, now, next);
    }
  }

  lemma ClockMovesOn(s: Store, last: Version, next: Version)
    requires AtMost(last, next)
    ensures VersionsCovered(s, last) ==> VersionsCovered(s, next)
    ensures EpochsCovered(s, last) ==> EpochsCovered(s, next)
  {
    forall v | AtMost(v, last)
      ensures AtMost(v, next)
    {
      VersionsTransitive(v, last, next);
    }
  }

  // ---- Fences, delay marks and collection --------------------------------

  /** The same lease, at most marked delayed. */
  predicate SameLease(a: Instance, b: Instance) {
    Leased(a) && Leased(b) && ExpiryTask(a) == ExpiryTask(b) && a.leaseEpoch == b.leaseEpoch
  }

  /** No lease appears, and every lease that remains is the same lease. */
  ghost predicate NoNewLeases(s: Store, t: Store) {
    forall k :: k in t.entries && Leased(t.entries[k].record) ==>
      k in s.entries && SameLease(t.entries[k].record, s.entries[k].record)
  }

  /** Nothing but deliveries brings in a record. */
  lemma UpkeepBringsNothing(encode: Encoding, s: Store, op: Op)
    requires StoreOk(s) && !op.Deliver?
    ensures NoNewLeases(s, Step(encode, s, op))
    ensures forall last :: VersionsCovered(s, last) ==> VersionsCovered(Step(encode, s, op), last)
  {
    var t := Step(encode, s, op);
    forall k
      ensures k in t.entries ==> k in s.entries && t.entries[k].record.version == s.entries[k].record.version
      ensures k in t.entries && Leased(t.entries[k].record) ==> SameLease(t.entries[k].record, s.entries[k].record)
    {
      StepIsPerKey(encode, s, op, k);
      assert CellAt(t, k) == StepCell(encode, CellAt(s, k), k, op);
    }
  }

  /** Delay marks and collection leave every lease where it is. */
  lemma UpkeepKeepsLeases(encode: Encoding, s: Store, op: Op, k: Key)
    requires (op.Delay? || op.Gc?) && k in s.entries && Leased(s.entries[k].record)
    ensures var t := Step(encode, s, op);
            k in t.entries && SameLease(t.entries[k].record, s.entries[k].record)
  {
    StepIsPerKey(encode, s, op, k);
    assert CellAt(Step(encode, s, op), k) == StepCell(encode, CellAt(s, k), k, op);
  }

  lemma FenceKeepsCovered(encode: Encoding, s: Store, f: Fence, last: Version, pool: multiset<Task>)
    ensures var t := Step(encode, s, DeliverFence(f));
            && (AllScheduled(s, pool) ==> AllScheduled(t, pool))
            && (VersionsCovered(s, last) ==> VersionsCovered(t, last))
            && (EpochsCovered(s, last) && AtMost(f.leaseEpoch, last) ==> EpochsCovered(t, last))
  {
    var t := Step(encode, s, DeliverFence(f));
    forall k
      ensures k in t.entries ==> k in s.entries && t.entries[k] == s.entries[k]
      ensures k in t.fences ==> (k in s.fences && t.fences[k] == s.fences[k]) || t.fences[k] == f
    {
      FenceRecords(encode, s, f, k);
    }
  }

  // ---- Expiry ------------------------------------------------------------

  /** The held record is the one the expiry task was scheduled for, and it is due. */
  predicate ExpiryMatches(c: Cell, task: Task, version: Version, now: Time) {
    && c.Discoverable()
    && c.entry.value.record.leaseId == task.leaseId
    && c.entry.value.record.version == version
    && c.entry.value.record.leaseDeadline <= now
  }

  /** An expiry, applied, leaves no lease: an apply of it schedules nothing. */
  lemma ExpiryIsNoLease(encode: Encoding, c: Cell, held: Instance, nodeId: string, next: Version, r: Reading)
    ensures var result := ApplyMutation(encode, c, ExpireMutation(held, nodeId, next, r), r.registry).1;
            result.Applied? ==> !Leased(result.record)
  {}

  /** A lease's own task parses back to the version it was scheduled for. */
  lemma OwnTaskMatches(s: Store, k: Key, task: Task, now: Time)
    requires StoreOk(s) && k in s.entries && Leased(s.entries[k].record)
    requires task == ExpiryTask(s.entries[k].record) && task.deadline <= now
    ensures TaskKey(task) == k
    ensures ParseVersion(task.expectedVersion) == Some(s.entries[k].record.version)
    ensures ExpiryMatches(CellAt(s, k), task, s.entries[k].record.version, now)
  {
    assert CellOk(CellAt(s, k), k);
    VersionRoundTrip(s.entries[k].record.version);
  }

  // ---- When a lease's tasks fall due -------------------------------------

  /** Of a lease that is applied at `now` with the node's own time to live: its delay mark
      falls due the delay after the apply, its expiry the time to live after it, both less
      what the time to live has beyond whole milliseconds. */
  lemma TasksFallDue(encode: Encoding, c: Cell, m: Mutation, now: Time, leaseTtl: int, delayedAfter: int)
    requires ApplyMutation(encode, c, m, now).1.Applied? && (m.kind.Register? || m.kind.Heartbeat?)
    requires 1_000_000 <= leaseTtl <= MAX_INT64 && m.remainingTtl == leaseTtl / 1_000_000
    requires now + leaseTtl - leaseTtl % 1_000_000 != ZERO_TIME
    ensures var lost, text := leaseTtl % 1_000_000, VersionString(m.record.version);
            TasksFor(ApplyMutation(encode, c, m, now).1, leaseTtl - delayedAfter) == multiset{
              Task(DelayTask, m.record.service, m.record.instanceId, m.record.leaseId, text, now + delayedAfter - lost),
              Task(ExpireTask, m.record.service, m.record.instanceId, m.record.leaseId, text, now + leaseTtl - lost)}
  {
    AppliedLeaves(encode, c, m, now);
    var record := ApplyMutation(encode, c, m, now).1.record;
    assert record.Wire().leaseId == m.record.leaseId && m.Valid();
    assert record.leaseDeadline == now + leaseTtl - leaseTtl % 1_000_000;
    assert Leased(record);
  }
}
