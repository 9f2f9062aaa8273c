/** A whole registry as a map of cells, its histories, and what any history leaves
    behind: one authority per key, the maximum of what was received. */
module Convergence {
  import opened Ordering
  import opened Versions
  import opened Model
  import opened OperationWindow
  import opened Authority
  import opened Cells

  /** The shards' two-level maps, flattened. */
  datatype Store = Store(entries: map<Key, Entry>, fences: map<Key, Fence>)

  const EMPTY_STORE := Store(map[], map[])

  datatype Op =
    | Deliver(m: Mutation, now: Time)
    | DeliverFence(f: Fence)
    | Delay(key: Key, leaseId: string, expected: Version, at: Time)
    | Gc(now: Time, retention: int)

  function CellAt(s: Store, key: Key): Cell {
    Cell(if key in s.entries then Some(s.entries[key]) else None,
         if key in s.fences then Some(s.fences[key]) else None)
  }

  function Put(s: Store, key: Key, c: Cell): Store {
    Store(if c.entry.Some? then s.entries[key := c.entry.value] else s.entries - {key},
          if c.fence.Some? then s.fences[key := c.fence.value] else s.fences - {key})
  }

  function Step(encode: Encoding, s: Store, op: Op): Store {
    match op
    case Deliver(m, now) =>
      var key := m.record.RecordKey();
      Put(s, key, ApplyMutation(encode, CellAt(s, key), m, now).0)
    case DeliverFence(f) => Put(s, f.key, ApplyFence(CellAt(s, f.key), f).0)
    case Delay(key, leaseId, expected, at) =>
      Put(s, key, MarkDelayed(CellAt(s, key), leaseId, expected, at))
    case Gc(now, retention) =>
      s.(entries := map k | k in s.entries && !Collectable(s.entries[k], now, retention) :: s.entries[k])
  }

  function Run(encode: Encoding, s: Store, ops: seq<Op>): Store {
    if ops == [] then s else Step(encode, Run(encode, s, ops[..|ops| - 1]), ops[|ops| - 1])
  }

  function AuthorityOf(s: Store, key: Key): Claim { CellClaim(CellAt(s, key)) }

  ghost predicate StoreOk(s: Store) {
    forall key {:trigger CellOk(CellAt(s, key), key)} :: CellOk(CellAt(s, key), key)
  }

  // ---- Every operation acts on one cell at a time ------------------------

  function StepCell(encode: Encoding, c: Cell, key: Key, op: Op): Cell {
    match op
    case Deliver(m, now) => if m.record.RecordKey() == key then ApplyMutation(encode, c, m, now).0 else c
    case DeliverFence(f) => if f.key == key then ApplyFence(c, f).0 else c
    case Delay(k, leaseId, expected, at) => if k == key then MarkDelayed(c, leaseId, expected, at) else c
    case Gc(now, retention) => Collect(c, now, retention)
  }

  function RunCell(encode: Encoding, c: Cell, key: Key, ops: seq<Op>): Cell {
    if ops == [] then c else StepCell(encode, RunCell(encode, c, key, ops[..|ops| - 1]), key, ops[|ops| - 1])
  }

  lemma StepIsPerKey(encode: Encoding, s: Store, op: Op, key: Key)
    ensures CellAt(Step(encode, s, op), key) == StepCell(encode, CellAt(s, key), key, op)
  {}

  /** The entry still holds the record it held, under the same kind and event. */
  predicate SameRecord(e: Entry, f: Entry) { e.record == f.record && e.kind == f.kind && e.eventId == f.eventId }

  /** The entry holds what the mutation brought. */
  predicate Brought(e: Entry, m: Mutation, now: Time) {
    e.record == PrepareIncoming(m, now) && e.kind == m.kind && e.eventId == m.eventId
  }

  /** A delivery leaves under every key what was there, or what the mutation brought. */
  lemma DeliveryRecords(encode: Encoding, s: Store, m: Mutation, now: Time, k: Key)
    ensures var t := Step(encode, s, Deliver(m, now));
            && (k in t.entries ==>
                  || (k in s.entries && SameRecord(t.entries[k], s.entries[k]))
                  || (m.record.RecordKey() == k && m.Valid() && Brought(t.entries[k], m, now)))
            && (k in t.fences ==>
                  || (k in s.fences && t.fences[k] == s.fences[k])
                  || (m.record.RecordKey() == k && m.record.status.EVICTED? && t.fences[k] == FenceOf(m)))
  {
    StepIsPerKey(encode, s, Deliver(m, now), k);
    var c, d := CellAt(s, k), CellAt(Step(encode, s, Deliver(m, now)), k);
    assert d == StepCell(encode, c, k, Deliver(m, now));
  }

  /** A fence leaves under every key what was there, or nothing and itself. */
  lemma FenceRecords(encode: Encoding, s: Store, f: Fence, k: Key)
    ensures var t := Step(encode, s, DeliverFence(f));
            && (k in t.entries ==> k in s.entries && t.entries[k] == s.entries[k])
            && (k in t.fences ==>
                  (k in s.fences && t.fences[k] == s.fences[k]) || (k == f.key && t.fences[k] == f && f.Valid()))
  {
    StepIsPerKey(encode, s, DeliverFence(f), k);
    assert CellAt(Step(encode, s, DeliverFence(f)), k) == StepCell(encode, CellAt(s, k), k, DeliverFence(f));
  }

  lemma {:induction false} RunIsPerKey(encode: Encoding, s: Store, ops: seq<Op>, key: Key)
    ensures CellAt(Run(encode, s, ops), key) == RunCell(encode, CellAt(s, key), key, ops)
  {
    if ops != [] {
      var init := ops[..|ops| - 1];
      RunIsPerKey(encode, s, init, key);
      StepIsPerKey(encode, Run(encode, s, init), ops[|ops| - 1], key);
    }
  }

  lemma StepCellKeepsOk(encode: Encoding, c: Cell, key: Key, op: Op)
    requires CellOk(c, key)
    ensures CellOk(StepCell(encode, c, key, op), key)
  {
    match op
    case Deliver(m, now) => if m.record.RecordKey() == key { ApplyMutationKeepsOk(encode, c, key, m, now); }
    case DeliverFence(f) => if f.key == key { FenceAcceptedIffItOutranks(c, key, f); }
    case Delay(k, leaseId, expected, at) => MarkDelayedKeepsOk(c, key, leaseId, expected, at);
    case Gc(now, retention) => CollectKeepsClaim(c, key, now, retention);
  }

  lemma StepKeepsOk(encode: Encoding, s: Store, op: Op)
    requires StoreOk(s)
    ensures StoreOk(Step(encode, s, op))
  {
    forall key
      ensures CellOk(CellAt(Step(encode, s, op), key), key)
    {
      assert CellOk(CellAt(s, key), key);
      StepIsPerKey(encode, s, op, key);
      StepCellKeepsOk(encode, CellAt(s, key), key, op);
    }
  }

  /** The entry/fence invariant holds in every reachable registry. */
  lemma {:induction false} RunKeepsOk(encode: Encoding, s: Store, ops: seq<Op>)
    requires StoreOk(s)
    ensures StoreOk(Run(encode, s, ops))
  {
    if ops != [] {
      var init := ops[..|ops| - 1];
      RunKeepsOk(encode, s, init);
      StepKeepsOk(encode, Run(encode, s, init), ops[|ops| - 1]);
    }
  }

  // ---- Two deliveries ----------------------------------------------------

  function TwoDeliveries(a: Mutation, b: Mutation, now: Time): seq<Op> { [Deliver(a, now), Deliver(b, now)] }

  lemma SecondOfTwo(encode: Encoding, key: Key, a: Mutation, b: Mutation, now: Time)
    requires a.Valid() && b.Valid() && a.record.RecordKey() == key == b.record.RecordKey()
    ensures CellClaim(RunCell(encode, EMPTY_CELL, key, TwoDeliveries(a, b, now)))
            == if Conflict(a, b) then MutationClaim(a) else Join(MutationClaim(a), MutationClaim(b))
  {
    SecondDelivery(encode, key, a, b, now);
    var two, one := TwoDeliveries(a, b, now), [Deliver(a, now)];
    assert two[..|two| - 1] == one && one[..|one| - 1] == [];
    assert RunCell(encode, EMPTY_CELL, key, one) == ApplyMutation(encode, EMPTY_CELL, a, now).0;
  }

  /** What either order leaves, compared. */
  lemma OrdersCompared(a: Mutation, b: Mutation, ab: Claim, ba: Claim)
    requires a.Valid() && b.Valid()
    requires ab == if Conflict(a, b) then MutationClaim(a) else Join(MutationClaim(a), MutationClaim(b))
    requires ba == if Conflict(b, a) then MutationClaim(b) else Join(MutationClaim(b), MutationClaim(a))
    ensures ab == ba <==> MutationRank(a) == MutationRank(b) || !Conflict(a, b)
  {
    assert Conflict(a, b) <==> Conflict(b, a);
    JoinIsLeastUpperBound(MutationClaim(a), MutationClaim(b));
  }

  /** Delivering the same two mutations in either order to a fresh key agrees on the
      authority exactly when they have one rank, or neither their leases clash nor
      do they share an operation id. */
  lemma TwoOrdersAgree(encode: Encoding, key: Key, a: Mutation, b: Mutation, now: Time)
    requires a.Valid() && b.Valid() && a.record.RecordKey() == key == b.record.RecordKey()
    ensures CellClaim(RunCell(encode, EMPTY_CELL, key, TwoDeliveries(a, b, now)))
            == CellClaim(RunCell(encode, EMPTY_CELL, key, TwoDeliveries(b, a, now)))
            <==> MutationRank(a) == MutationRank(b) || !Conflict(a, b)
  {
    var ab := RunCell(encode, EMPTY_CELL, key, TwoDeliveries(a, b, now));
    var ba := RunCell(encode, EMPTY_CELL, key, TwoDeliveries(b, a, now));
    SecondOfTwo(encode, key, a, b, now);
    SecondOfTwo(encode, key, b, a, now);
    OrdersCompared(a, b, CellClaim(ab), CellClaim(ba));
  }

  // For example two heartbeats with one operation id: whichever comes second is taken for
  // a retry of the first.

  const BEATEN := Instance("s", "i", "reg", Endpoint("h", 80, "http", map[]), ACTIVE, HEARTBEAT_OK, 1, "lease",
                           Version(1, 0, "a"), Version(2, 0, "a"), "a", 0, 0, 0, None, false, ZERO_TIME, 0)

  const FIRST_BEAT := Mutation(Heartbeat, BEATEN, "evt-1", "op", 0)

  const SECOND_BEAT := Mutation(Heartbeat, BEATEN.(version := Version(3, 0, "a")), "evt-2", "op", 0)

  lemma FirstBeatIsValid()
    ensures FIRST_BEAT.Valid() && FIRST_BEAT.record.RecordKey() == Key("s", "i")
  {}

  lemma SecondBeatIsValid()
    ensures SECOND_BEAT.Valid() && SECOND_BEAT.record.RecordKey() == Key("s", "i")
  {}

  lemma BeatsConflict()
    ensures Conflict(FIRST_BEAT, SECOND_BEAT) && MutationRank(FIRST_BEAT) != MutationRank(SECOND_BEAT)
  {}

  lemma ReusedOperationId(encode: Encoding, now: Time)
    ensures CellClaim(RunCell(encode, EMPTY_CELL, Key("s", "i"), TwoDeliveries(FIRST_BEAT, SECOND_BEAT, now)))
            != CellClaim(RunCell(encode, EMPTY_CELL, Key("s", "i"), TwoDeliveries(SECOND_BEAT, FIRST_BEAT, now)))
  {
    FirstBeatIsValid();
    SecondBeatIsValid();
    BeatsConflict();
    TwoOrdersAgree(encode, Key("s", "i"), FIRST_BEAT, SECOND_BEAT, now);
  }

  // ---- Convergence -------------------------------------------------------

  datatype Fact = MutationFact(m: Mutation) | FenceFact(f: Fence)
  {
    function FactKey(): Key { if MutationFact? then m.record.RecordKey() else f.key }

    function FactClaim(): Claim { if MutationFact? then MutationClaim(m) else FenceClaim(f) }
  }

  /** The valid mutations and fences a history delivers, without order or count. */
  ghost function Facts(ops: seq<Op>): set<Fact> {
    if ops == [] then {} else Facts(ops[..|ops| - 1]) + FactsOf(ops[|ops| - 1])
  }

  ghost function FactsOf(op: Op): set<Fact> {
    match op
    case Deliver(m, _) => if m.Valid() then {MutationFact(m)} else {}
    case DeliverFence(f) => if f.Valid() then {FenceFact(f)} else {}
    case _ => {}
  }

  /** One lease id per lease epoch of a key. */
  ghost predicate LeasesCoherent(facts: set<Fact>) {
    forall a, b :: MutationFact(a) in facts && MutationFact(b) in facts
      && a.record.RecordKey() == b.record.RecordKey() && a.record.leaseEpoch == b.record.leaseEpoch
      ==> a.record.leaseId == b.record.leaseId
  }

  /** A client operation id belongs to mutations of one rank. */
  ghost predicate OperationsCoherent(facts: set<Fact>) {
    forall a, b :: MutationFact(a) in facts && MutationFact(b) in facts
      && a.record.RecordKey() == b.record.RecordKey() && a.operationId == b.operationId != ""
      ==> MutationRank(a) == MutationRank(b)
  }

  /** The claim is the greatest rank among the facts about the key. */
  ghost predicate IsMaximum(claim: Claim, facts: set<Fact>, key: Key) {
    && (forall fact :: fact in facts && fact.FactKey() == key ==> Below(fact.FactClaim(), claim))
    && (claim.Some? ==> exists fact :: fact in facts && fact.FactKey() == key && fact.FactClaim() == claim)
  }

  ghost predicate SeenLease(facts: set<Fact>, key: Key, epoch: Version, leaseId: string) {
    exists m :: MutationFact(m) in facts && m.record.RecordKey() == key
      && m.record.leaseEpoch == epoch && m.record.leaseId == leaseId
  }

  ghost predicate SeenOperation(facts: set<Fact>, key: Key, operationId: string, bound: Rank) {
    exists m :: MutationFact(m) in facts && m.record.RecordKey() == key
      && m.operationId == operationId != "" && CompareRank(MutationRank(m), bound) <= 0
  }

  /** The entry's lease and remembered operations come from delivered facts. */
  ghost predicate Sourced(c: Cell, key: Key, facts: set<Fact>) {
    c.entry.Some? ==>
      var e := c.entry.value;
      && SeenLease(facts, key, e.record.leaseEpoch, e.record.leaseId)
      && (forall id :: id in e.window.events ==> SeenOperation(facts, key, id, EntryRank(e)))
  }

  lemma WindowStaysSourced(facts: set<Fact>, key: Key, w: Window, low: Rank, m: Mutation, eventId: string)
    requires forall id :: id in w.events ==> SeenOperation(facts, key, id, low)
    requires MutationFact(m) in facts && m.record.RecordKey() == key
    requires CompareRank(low, MutationRank(m)) <= 0
    ensures forall id :: id in Remember(w, m.operationId, eventId).events ==>
              SeenOperation(facts, key, id, MutationRank(m))
  {
    forall id | id in Remember(w, m.operationId, eventId).events
      ensures SeenOperation(facts, key, id, MutationRank(m))
    {
      if id in w.events {
        var seen :| MutationFact(seen) in facts && seen.record.RecordKey() == key
          && seen.operationId == id != "" && CompareRank(MutationRank(seen), low) <= 0;
        RankTransitive(MutationRank(seen), low, MutationRank(m));
      }
    }
  }

  lemma DeliveryStaysSourced(encode: Encoding, c: Cell, key: Key, m: Mutation, now: Time, facts: set<Fact>)
    requires CellOk(c, key) && Sourced(c, key, facts)
    requires m.record.RecordKey() == key && (m.Valid() ==> MutationFact(m) in facts)
    ensures Sourced(ApplyMutation(encode, c, m, now).0, key, facts)
  {
    if m.Valid() {
      StoredRank(m, now, EMPTY_WINDOW);
      WindowStaysSourced(facts, key, EMPTY_WINDOW, MutationRank(m), m, m.eventId);
      if c.entry.Some? {
        var e := c.entry.value;
        IncomingOrderIsRank(encode, m, e);
        RankAntisymmetric(MutationRank(m), EntryRank(e));
        if CompareIncoming(encode, m, e) >= 0 {
          WindowStaysSourced(facts, key, e.window, EntryRank(e), m, m.eventId);
          WindowStaysSourced(facts, key, e.window, EntryRank(e), m, e.eventId);
        }
      }
    }
  }

  /** With coherent facts, delivering a mutation joins its rank even when the
      registry refuses it as a known operation: a lease clash cannot happen. */
  lemma DeliveryJoins(encode: Encoding, c: Cell, key: Key, m: Mutation, now: Time, facts: set<Fact>)
    requires CellOk(c, key) && Sourced(c, key, facts)
    requires LeasesCoherent(facts) && OperationsCoherent(facts)
    requires m.record.RecordKey() == key && (m.Valid() ==> MutationFact(m) in facts)
    ensures CellClaim(ApplyMutation(encode, c, m, now).0) == Join(CellClaim(c), MutationClaim(m))
  {
    ApplyMutationJoins(encode, c, key, m, now);
    JoinIsLeastUpperBound(CellClaim(c), MutationClaim(m));
    if m.Valid() && Refused(c, m) {
      var e := c.entry.value;
      assert !LeaseClash(m, e);
      assert SeenOperation(facts, key, m.operationId, EntryRank(e));
    }
  }

  ghost predicate Delivered(op: Op, facts: set<Fact>) { FactsOf(op) <= facts }

  lemma StepTakesMaximum(encode: Encoding, c: Cell, key: Key, op: Op, before: set<Fact>, all: set<Fact>)
    requires CellOk(c, key) && Sourced(c, key, all) && IsMaximum(CellClaim(c), before, key)
    requires LeasesCoherent(all) && OperationsCoherent(all) && Delivered(op, all)
    ensures Sourced(StepCell(encode, c, key, op), key, all)
    ensures IsMaximum(CellClaim(StepCell(encode, c, key, op)), before + FactsOf(op), key)
  {
    match op
    case Deliver(m, now) =>
      if m.record.RecordKey() == key {
        DeliveryStaysSourced(encode, c, key, m, now, all);
        DeliveryJoins(encode, c, key, m, now, all);
        MaximumOfJoin(CellClaim(c), before, key, op, MutationFact(m));
      }
    case DeliverFence(f) =>
      if f.key == key {
        FenceAcceptedIffItOutranks(c, key, f);
        MaximumOfJoin(CellClaim(c), before, key, op, FenceFact(f));
      }
    case Delay(k, leaseId, expected, at) => MarkDelayedKeepsOk(c, key, leaseId, expected, at);
    case Gc(now, retention) => CollectKeepsClaim(c, key, now, retention);
  }

  lemma MaximumOfJoin(claim: Claim, before: set<Fact>, key: Key, op: Op, fact: Fact)
    requires IsMaximum(claim, before, key)
    requires fact.FactKey() == key && FactsOf(op) == (if fact.FactClaim().Some? then {fact} else {})
    ensures IsMaximum(Join(claim, fact.FactClaim()), before + FactsOf(op), key)
  {
    var joined := Join(claim, fact.FactClaim());
    JoinIsLeastUpperBound(claim, fact.FactClaim());
    forall other | other in before && other.FactKey() == key
      ensures Below(other.FactClaim(), joined)
    {
      BelowTransitive(other.FactClaim(), claim, joined);
    }
  }

  lemma {:induction false} RunTakesMaximum(encode: Encoding, ops: seq<Op>, key: Key, all: set<Fact>)
    requires Facts(ops) <= all && LeasesCoherent(all) && OperationsCoherent(all)
    ensures var c := RunCell(encode, EMPTY_CELL, key, ops);
            CellOk(c, key) && Sourced(c, key, all) && IsMaximum(CellClaim(c), Facts(ops), key)
  {
    if ops != [] {
      var init, last := ops[..|ops| - 1], ops[|ops| - 1];
      RunTakesMaximum(encode, init, key, all);
      var c := RunCell(encode, EMPTY_CELL, key, init);
      StepCellKeepsOk(encode, c, key, last);
      StepTakesMaximum(encode, c, key, last, Facts(init), all);
    }
  }

  /** After any history, with any repetition, reordering, delay marking and
      collection, a key's authority is the greatest rank received for it. */
  lemma AuthorityIsMaximum(encode: Encoding, ops: seq<Op>, key: Key)
    requires LeasesCoherent(Facts(ops)) && OperationsCoherent(Facts(ops))
    ensures IsMaximum(AuthorityOf(Run(encode, EMPTY_STORE, ops), key), Facts(ops), key)
  {
    RunIsPerKey(encode, EMPTY_STORE, ops, key);
    RunTakesMaximum(encode, ops, key, Facts(ops));
  }

  /** Some fact about the key carries this rank. */
  ghost predicate Received(facts: set<Fact>, key: Key, rank: Rank) {
    exists fact :: fact in facts && fact.FactKey() == key && fact.FactClaim() == Some(rank)
  }

  /** Two registries that received the same ranks of a key, each in its own order and
      as often as it happened, hold the same authority for it. The mutations need not
      be the same values: local deadlines, remaining TTLs and operation ids may differ. */
  lemma Convergence(encode: Encoding, ops1: seq<Op>, ops2: seq<Op>, key: Key)
    requires LeasesCoherent(Facts(ops1)) && OperationsCoherent(Facts(ops1))
    requires LeasesCoherent(Facts(ops2)) && OperationsCoherent(Facts(ops2))
    requires forall rank :: Received(Facts(ops1), key, rank) <==> Received(Facts(ops2), key, rank)
    ensures AuthorityOf(Run(encode, EMPTY_STORE, ops1), key) == AuthorityOf(Run(encode, EMPTY_STORE, ops2), key)
  {
    AuthorityIsMaximum(encode, ops1, key);
    AuthorityIsMaximum(encode, ops2, key);
    var one := AuthorityOf(Run(encode, EMPTY_STORE, ops1), key);
    var two := AuthorityOf(Run(encode, EMPTY_STORE, ops2), key);
    MaximumIsBelow(one, Facts(ops1), two, Facts(ops2), key);
    MaximumIsBelow(two, Facts(ops2), one, Facts(ops1), key);
    BelowAntisymmetric(one, two);
  }

  lemma MaximumIsBelow(one: Claim, ones: set<Fact>, two: Claim, twos: set<Fact>, key: Key)
    requires IsMaximum(one, ones, key) && IsMaximum(two, twos, key)
    requires forall rank :: Received(ones, key, rank) ==> Received(twos, key, rank)
    ensures Below(one, two)
  {
    if one.Some? {
      assert Received(ones, key, one.value);
    }
  }

  // ---- No resurrection ---------------------------------------------------

  /** The key is not discoverable, and what is known about it is an explicit
      termination of `epoch` or something of a later epoch. */
  ghost predicate Terminated(c: Cell, epoch: Version) {
    && !c.Discoverable()
    && CellClaim(c).Some?
    && var rank := CellClaim(c).value;
       Before(epoch, rank.epoch) || (rank.epoch == epoch && rank.terminal)
  }

  ghost predicate DeliversAtMost(op: Op, key: Key, epoch: Version) {
    op.Deliver? && op.m.record.RecordKey() == key && op.m.Valid() ==> AtMost(op.m.record.leaseEpoch, epoch)
  }

  lemma DeliveryStaysTerminated(encode: Encoding, c: Cell, key: Key, m: Mutation, now: Time, epoch: Version)
    requires CellOk(c, key) && Terminated(c, epoch) && m.record.RecordKey() == key && m.Valid()
    requires AtMost(m.record.leaseEpoch, epoch)
    ensures Terminated(ApplyMutation(encode, c, m, now).0, epoch)
  {
    VersionsAntisymmetric(epoch, CellClaim(c).value.epoch);
    if Before(epoch, CellClaim(c).value.epoch) {
      VersionsTransitive(m.record.leaseEpoch, epoch, CellClaim(c).value.epoch);
    }
    StoredRank(m, now, EMPTY_WINDOW);
  }

  lemma FenceStaysTerminated(c: Cell, key: Key, f: Fence, epoch: Version)
    requires CellOk(c, key) && Terminated(c, epoch) && f.key == key
    ensures Terminated(ApplyFence(c, f).0, epoch)
  {
    FenceAcceptedIffItOutranks(c, key, f);
    if ApplyFence(c, f).1 {
      var was := CellClaim(c).value;
      VersionsAntisymmetric(was.epoch, f.leaseEpoch);
      if Before(epoch, was.epoch) {
        VersionsTransitive(epoch, was.epoch, f.leaseEpoch);
      }
    }
  }

  lemma StepStaysTerminated(encode: Encoding, c: Cell, key: Key, op: Op, epoch: Version)
    requires CellOk(c, key) && Terminated(c, epoch) && DeliversAtMost(op, key, epoch)
    ensures Terminated(StepCell(encode, c, key, op), epoch)
  {
    match op
    case Deliver(m, now) =>
      if m.record.RecordKey() == key && m.Valid() {
        DeliveryStaysTerminated(encode, c, key, m, now, epoch);
      }
    case DeliverFence(f) =>
      if f.key == key {
        FenceStaysTerminated(c, key, f, epoch);
      }
    case Delay(k, leaseId, expected, at) =>
    case Gc(now, retention) => CollectKeepsClaim(c, key, now, retention);
  }

  /** No mutation of a later epoch is applied to the key. */
  ghost predicate AppliesAtMost(encode: Encoding, c: Cell, op: Op, key: Key, epoch: Version) {
    op.Deliver? && op.m.record.RecordKey() == key && ApplyMutation(encode, c, op.m, op.now).1.Applied?
    ==> AtMost(op.m.record.leaseEpoch, epoch)
  }

  ghost predicate RunAppliesAtMost(encode: Encoding, c: Cell, ops: seq<Op>, key: Key, epoch: Version) {
    forall i :: 0 <= i < |ops| ==> AppliesAtMost(encode, RunCell(encode, c, key, ops[..i]), ops[i], key, epoch)
  }

  /** What is not applied changes no record, kind, event or fence. */
  lemma UnappliedChangesNothing(encode: Encoding, c: Cell, m: Mutation, now: Time)
    requires !ApplyMutation(encode, c, m, now).1.Applied?
    ensures var after := ApplyMutation(encode, c, m, now).0;
            && after.fence == c.fence && (after.entry.Some? <==> c.entry.Some?)
            && (after.entry.Some? ==> SameRecord(after.entry.value, c.entry.value))
  {}

  lemma AppliedStaysTerminated(encode: Encoding, c: Cell, key: Key, op: Op, epoch: Version)
    requires CellOk(c, key) && Terminated(c, epoch) && AppliesAtMost(encode, c, op, key, epoch)
    ensures Terminated(StepCell(encode, c, key, op), epoch)
  {
    if op.Deliver? && op.m.record.RecordKey() == key && !ApplyMutation(encode, c, op.m, op.now).1.Applied? {
      UnappliedChangesNothing(encode, c, op.m, op.now);
    } else {
      StepStaysTerminated(encode, c, key, op, epoch);
    }
  }

  lemma {:induction false} CellStaysTerminated(encode: Encoding, c: Cell, key: Key, epoch: Version, ops: seq<Op>)
    requires CellOk(c, key) && Terminated(c, epoch) && RunAppliesAtMost(encode, c, ops, key, epoch)
    ensures CellOk(RunCell(encode, c, key, ops), key) && Terminated(RunCell(encode, c, key, ops), epoch)
  {
    if ops != [] {
      var init, last := ops[..|ops| - 1], ops[|ops| - 1];
      assert forall i :: 0 <= i < |init| ==> init[..i] == ops[..i];
      assert AppliesAtMost(encode, RunCell(encode, c, key, ops[..|init|]), ops[|init|], key, epoch);
      CellStaysTerminated(encode, c, key, epoch, init);
      StepCellKeepsOk(encode, RunCell(encode, c, key, init), key, last);
      AppliedStaysTerminated(encode, RunCell(encode, c, key, init), key, last, epoch);
    }
  }

  /** An explicit termination of a lease is final for that lease: until a mutation of a
      later epoch is applied to the key, no history, however it versions its mutations,
      and even after the tombstone is collected, makes the key discoverable again. */
  lemma NoResurrection(encode: Encoding, s: Store, key: Key, epoch: Version, ops: seq<Op>)
    requires StoreOk(s) && Terminated(CellAt(s, key), epoch)
    requires RunAppliesAtMost(encode, CellAt(s, key), ops, key, epoch)
    ensures Terminated(CellAt(Run(encode, s, ops), key), epoch)
  {
    assert CellOk(CellAt(s, key), key);
    RunIsPerKey(encode, s, ops, key);
    CellStaysTerminated(encode, CellAt(s, key), key, epoch, ops);
  }

  // ---- The operation window over histories -------------------------------

  /** The mutation creates the entry or raises its lease epoch. */
  predicate Restarts(c: Cell, m: Mutation) { c.entry.None?
                                            || Before(c.entry.value.record.leaseEpoch, m.record.leaseEpoch) }

  /** The operations an entry has answered since it was created or its lease epoch last
      rose, with the event each was answered with. */
  function AnswersAfter(calls: seq<Call>, c: Cell, m: Mutation, result: ApplyResult): seq<Call> {
    match result
    case Applied(_, _, eventId) =>
      (if Restarts(c, m) then [] else calls) + [Call(m.operationId, eventId)]
    case Duplicate(_, eventId) => calls + [Call(m.operationId, eventId)]
    case _ => calls
  }

  function Answers(encode: Encoding, key: Key, ops: seq<Op>): seq<Call> {
    if ops == [] then []
    else
      var init, op := ops[..|ops| - 1], ops[|ops| - 1];
      var calls, c := Answers(encode, key, init), RunCell(encode, EMPTY_CELL, key, init);
      if op.Deliver? && op.m.record.RecordKey() == key then
        AnswersAfter(calls, c, op.m, ApplyMutation(encode, c, op.m, op.now).1)
      else calls
  }

  lemma RememberOneMore(calls: seq<Call>, call: Call)
    ensures RememberAll(EMPTY_WINDOW, calls + [call])
            == Remember(RememberAll(EMPTY_WINDOW, calls), call.operationId, call.eventId)
    ensures RememberAll(EMPTY_WINDOW, [call]) == Remember(EMPTY_WINDOW, call.operationId, call.eventId)
  {
    assert (calls + [call])[..|calls|] == calls;
    assert RememberAll(EMPTY_WINDOW, [call][..0]) == EMPTY_WINDOW;
  }

  /** What an applied mutation keeps of the window. */
  function KeptWindow(c: Cell, m: Mutation): Window {
    if Restarts(c, m) then EMPTY_WINDOW else c.entry.value.window
  }

  /** A delivery that is applied or answered remembers one call; any other none. */
  lemma DeliveryRemembers(encode: Encoding, c: Cell, m: Mutation, now: Time)
    ensures var (after, result) := ApplyMutation(encode, c, m, now);
            && (result.Duplicate? ==>
                  && c.entry.Some? && after.entry.Some? && after.entry.value.record == c.entry.value.record
                  && after.entry.value.window == Remember(c.entry.value.window, m.operationId, result.eventId))
            && (result.Applied? ==>
                  && after.entry.Some? && result.eventId == m.eventId
                     && after.entry.value.record.leaseEpoch == m.record.leaseEpoch
                  && (c.entry.Some? ==> !c.entry.value.window.Knows(m.operationId))
                  && after.entry.value.window == Remember(KeptWindow(c, m), m.operationId, result.eventId))
            && (!result.Applied? && !result.Duplicate? ==> after.entry == c.entry)
  {}

  lemma WindowAfterDelivery(encode: Encoding, c: Cell, m: Mutation, now: Time, calls: seq<Call>)
    requires c.entry.Some? ==> c.entry.value.window == RememberAll(EMPTY_WINDOW, calls)
    ensures var (after, result) := ApplyMutation(encode, c, m, now);
            after.entry.Some? ==>
              after.entry.value.window == RememberAll(EMPTY_WINDOW, AnswersAfter(calls, c, m, result))
  {
    DeliveryRemembers(encode, c, m, now);
    var result := ApplyMutation(encode, c, m, now).1;
    if result.Applied? || result.Duplicate? {
      RememberOneMore(calls, Call(m.operationId, result.eventId));
      assert [] + [Call(m.operationId, result.eventId)] == [Call(m.operationId, result.eventId)];
    }
  }

  /** After any history the window of a held entry is the operations answered since it
      was created or its epoch last rose, remembered one by one. */
  lemma {:induction false} WindowIsAnswers(encode: Encoding, key: Key, ops: seq<Op>)
    ensures var c := RunCell(encode, EMPTY_CELL, key, ops);
            c.entry.Some? ==> c.entry.value.window == RememberAll(EMPTY_WINDOW, Answers(encode, key, ops))
  {
    if ops != [] {
      var init, op := ops[..|ops| - 1], ops[|ops| - 1];
      WindowIsAnswers(encode, key, init);
      if op.Deliver? && op.m.record.RecordKey() == key {
        WindowAfterDelivery(encode, RunCell(encode, EMPTY_CELL, key, init), op.m, op.now, Answers(encode, key, init));
      }
    }
  }

  /** So the remembered ids, in order and with their events, are exactly the newest 32
      distinct ones answered since then. */
  lemma HistoryWindowHoldsNewest(encode: Encoding, key: Key, ops: seq<Op>)
    ensures var c, log := CellAt(Run(encode, EMPTY_STORE, ops), key), Log(Answers(encode, key, ops));
            c.entry.Some? ==>
              && c.entry.value.window.Valid() && Represents(c.entry.value.window, Newest(log))
              && |c.entry.value.window.order| == (if |log| < 32 then |log| else 32)
  {
    RunIsPerKey(encode, EMPTY_STORE, ops, key);
    WindowIsAnswers(encode, key, ops);
    WindowHoldsNewest(Answers(encode, key, ops));
  }

  // ---- Client retries ----------------------------------------------------

  predicate HoldsEpoch(c: Cell, epoch: Version) {
    c.entry.Some? && c.entry.value.record.leaseEpoch == epoch
  }

  ghost predicate HoldsThroughout(encode: Encoding, c: Cell, key: Key, epoch: Version, ops: seq<Op>) {
    forall n :: 0 <= n <= |ops| ==> HoldsEpoch(RunCell(encode, c, key, ops[..n]), epoch)
  }

  function Remembers(key: Key, op: Op): nat {
    if op.Deliver? && op.m.record.RecordKey() == key && op.m.operationId != "" then 1 else 0
  }

  function Remembered(key: Key, ops: seq<Op>): nat {
    if ops == [] then 0 else Remembered(key, ops[..|ops| - 1]) + Remembers(key, ops[|ops| - 1])
  }

  lemma DeliveryAgesWindow(encode: Encoding, c: Cell, m: Mutation, now: Time, operationId: string, eventId: string,
                           age: nat)
    requires c.entry.Some? && c.entry.value.window.Valid()
    requires ApplyMutation(encode, c, m, now).0.entry.Some?
    requires ApplyMutation(encode, c, m, now).0.entry.value.record.leaseEpoch == c.entry.value.record.leaseEpoch
    requires age + (if m.operationId != "" then 1 else 0) <= WINDOW_SIZE
    requires AmongNewest(c.entry.value.window, operationId, eventId, age)
    ensures AmongNewest(ApplyMutation(encode, c, m, now).0.entry.value.window, operationId, eventId,
                        age + if m.operationId != "" then 1 else 0)
  {
    var result := ApplyMutation(encode, c, m, now).1;
    DeliveryRemembers(encode, c, m, now);
    VersionsAntisymmetric(m.record.leaseEpoch, m.record.leaseEpoch);
    if (result.Applied? || result.Duplicate?) && m.operationId != "" {
      AgesByOne(c.entry.value.window, operationId, eventId, age, Call(m.operationId, result.eventId));
    }
  }

  lemma StepAgesWindow(encode: Encoding, c: Cell, key: Key, op: Op, operationId: string, eventId: string, age: nat)
    requires CellOk(c, key) && c.entry.Some? && StepCell(encode, c, key, op).entry.Some?
    requires StepCell(encode, c, key, op).entry.value.record.leaseEpoch == c.entry.value.record.leaseEpoch
    requires age + Remembers(key, op) <= WINDOW_SIZE && AmongNewest(c.entry.value.window, operationId, eventId, age)
    ensures AmongNewest(StepCell(encode, c, key, op).entry.value.window, operationId, eventId, age + Remembers(key, op))
  {
    if op.Deliver? && op.m.record.RecordKey() == key {
      DeliveryAgesWindow(encode, c, op.m, op.now, operationId, eventId, age);
    }
  }

  lemma {:induction false} RunAgesWindow(encode: Encoding, c: Cell, key: Key, epoch: Version, ops: seq<Op>,
                                         operationId: string, eventId: string)
    requires CellOk(c, key) && HoldsThroughout(encode, c, key, epoch, ops)
    requires HoldsEpoch(c, epoch) && AmongNewest(c.entry.value.window, operationId, eventId, 1)
    requires 1 + Remembered(key, ops) <= WINDOW_SIZE
    ensures var after := RunCell(encode, c, key, ops);
            CellOk(after, key) && HoldsEpoch(after, epoch)
            && AmongNewest(after.entry.value.window, operationId, eventId, 1 + Remembered(key, ops))
  {
    if ops != [] {
      var init, last := ops[..|ops| - 1], ops[|ops| - 1];
      assert forall n :: 0 <= n <= |init| ==> init[..n] == ops[..n];
      assert ops[..|ops|] == ops;
      RunAgesWindow(encode, c, key, epoch, init, operationId, eventId);
      var mid := RunCell(encode, c, key, init);
      StepCellKeepsOk(encode, mid, key, last);
      StepAgesWindow(encode, mid, key, last, operationId, eventId, 1 + Remembered(key, init));
    }
  }

  lemma AppliedIsNewest(encode: Encoding, c: Cell, key: Key, m: Mutation, now: Time)
    requires CellOk(c, key) && m.record.RecordKey() == key && m.operationId != ""
    requires ApplyMutation(encode, c, m, now).1.Applied?
    ensures var applied := ApplyMutation(encode, c, m, now).0;
            && HoldsEpoch(applied, m.record.leaseEpoch)
            && AmongNewest(applied.entry.value.window, m.operationId, m.eventId, 1)
  {
    DeliveryRemembers(encode, c, m, now);
    RememberedIsNewest(KeptWindow(c, m), m.operationId, m.eventId);
  }

  /** A retry of an applied operation, while the lease is held and fewer than 32
      other operations came between, gets the original event id back and changes
      nothing, whatever version and TTL the retry carries. */
  lemma RetryReturnsOriginalEvent(encode: Encoding, c: Cell, key: Key, m: Mutation, now: Time, ops: seq<Op>,
                                  retry: Mutation, later: Time)
    requires CellOk(c, key) && m.record.RecordKey() == key && m.operationId != ""
    requires ApplyMutation(encode, c, m, now).1.Applied?
    requires HoldsThroughout(encode, ApplyMutation(encode, c, m, now).0, key, m.record.leaseEpoch, ops)
    requires Remembered(key, ops) < WINDOW_SIZE
    requires retry.Valid() && retry.record.RecordKey() == key && retry.operationId == m.operationId
    ensures var held := RunCell(encode, ApplyMutation(encode, c, m, now).0, key, ops);
            held.entry.Some? && ApplyMutation(encode, held, retry, later)
                == (held, Duplicate(held.entry.value.record, m.eventId))
  {
    var applied := ApplyMutation(encode, c, m, now).0;
    ApplyMutationKeepsOk(encode, c, key, m, now);
    AppliedIsNewest(encode, c, key, m, now);
    RunAgesWindow(encode, applied, key, m.record.leaseEpoch, ops, m.operationId, m.eventId);
  }
}
