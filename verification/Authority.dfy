/** The merge order (backend/internal/registry/apply.go): the four comparators the
    registry is written with, and the single lexicographic rank they all compute. */
module Authority {
  import opened Ordering
  import opened Versions
  import opened Model
  import opened OperationWindow

  /** What the registry stores under a key; `window` remembers client operations. */
  datatype Entry = Entry(record: Instance, kind: Kind, eventId: string, window: Window)

  /** json.Marshal, as any deterministic function of what JSON carries. */
  type Encoding = Instance -> string

  // ---- The comparators, as written ---------------------------------------

  function CompareIncoming(encode: Encoding, m: Mutation, e: Entry): int {
    var epochs := CompareVersion(m.record.leaseEpoch, e.record.leaseEpoch);
    if epochs != 0 then epochs
    else if e.record.ExplicitlyTerminal() && !m.kind.ExplicitlyTerminal() then -1
    else if m.kind.ExplicitlyTerminal() && !e.record.ExplicitlyTerminal() then 1
    else if m.record.leaseId != e.record.leaseId then -1
    else
      var versions := CompareVersion(m.record.version, e.record.version);
      if versions != 0 then versions
      else if m.kind == e.kind && m.eventId == e.eventId && m.record == e.record then 0
      else if m.kind.Priority() != e.kind.Priority() then
        if m.kind.Priority() > e.kind.Priority() then 1 else -1
      else if CompareStrings(m.eventId, e.eventId) != 0 then CompareStrings(m.eventId, e.eventId)
      else CompareStrings(encode(m.record.Wire()), encode(e.record.Wire()))
  }

  predicate IncomingBeatsFence(m: Mutation, f: Fence) {
    var epochs := CompareVersion(m.record.leaseEpoch, f.leaseEpoch);
    if epochs != 0 then epochs > 0
    else if f.kind.ExplicitlyTerminal() && !m.kind.ExplicitlyTerminal() then false
    else if m.kind.ExplicitlyTerminal() && !f.kind.ExplicitlyTerminal() then true
    else
      var versions := CompareVersion(m.record.version, f.version);
      if versions != 0 then versions > 0
      else if m.kind.Priority() != f.kind.Priority() then m.kind.Priority() > f.kind.Priority()
      else CompareStrings(m.eventId, f.eventId) > 0
  }

  function CompareFenceToEntry(f: Fence, e: Entry): int {
    var epochs := CompareVersion(f.leaseEpoch, e.record.leaseEpoch);
    if epochs != 0 then epochs
    else if e.record.ExplicitlyTerminal() && !f.kind.ExplicitlyTerminal() then -1
    else if f.kind.ExplicitlyTerminal() && !e.record.ExplicitlyTerminal() then 1
    else
      var versions := CompareVersion(f.version, e.record.version);
      if versions != 0 then versions
      else if f.kind.Priority() != e.kind.Priority() then
        if f.kind.Priority() > e.kind.Priority() then 1 else -1
      else CompareStrings(f.eventId, e.eventId)
  }

  function CompareFences(a: Fence, b: Fence): int {
    var epochs := CompareVersion(a.leaseEpoch, b.leaseEpoch);
    if epochs != 0 then epochs
    else if b.kind.ExplicitlyTerminal() && !a.kind.ExplicitlyTerminal() then -1
    else if a.kind.ExplicitlyTerminal() && !b.kind.ExplicitlyTerminal() then 1
    else
      var versions := CompareVersion(a.version, b.version);
      if versions != 0 then versions
      else if a.kind.Priority() != b.kind.Priority() then
        if a.kind.Priority() > b.kind.Priority() then 1 else -1
      else CompareStrings(a.eventId, b.eventId)
  }

  // ---- The rank ----------------------------------------------------------

  datatype Rank = Rank(epoch: Version, terminal: bool, version: Version, priority: int, eventId: string)

  function CompareRank(a: Rank, b: Rank): (c: int)
    ensures -1 <= c <= 1
    ensures c == 0 <==> a == b
  {
    Lex(CompareVersion(a.epoch, b.epoch),
    Lex(CompareInts(if a.terminal then 1 else 0, if b.terminal then 1 else 0),
    Lex(CompareVersion(a.version, b.version),
    Lex(CompareInts(a.priority, b.priority),
        CompareStrings(a.eventId, b.eventId)))))
  }

  function MutationRank(m: Mutation): Rank {
    Rank(m.record.leaseEpoch, m.kind.ExplicitlyTerminal(), m.record.version, m.kind.Priority(), m.eventId)
  }

  function EntryRank(e: Entry): Rank {
    Rank(e.record.leaseEpoch, e.record.ExplicitlyTerminal(), e.record.version, e.kind.Priority(), e.eventId)
  }

  function FenceRank(f: Fence): Rank {
    Rank(f.leaseEpoch, f.kind.ExplicitlyTerminal(), f.version, f.kind.Priority(), f.eventId)
  }

  lemma RankAntisymmetric(a: Rank, b: Rank)
    ensures CompareRank(a, b) == -CompareRank(b, a)
  {
    VersionsAntisymmetric(a.epoch, b.epoch);
    VersionsAntisymmetric(a.version, b.version);
    StringsAntisymmetric(a.eventId, b.eventId);
  }

  lemma RankTransitive(a: Rank, b: Rank, c: Rank)
    requires CompareRank(a, b) <= 0 && CompareRank(b, c) <= 0
    ensures CompareRank(a, c) <= 0
  {
    assert AtMost(a.epoch, b.epoch) && AtMost(b.epoch, c.epoch);
    VersionsTransitive(a.epoch, b.epoch, c.epoch);
    if a.epoch == b.epoch == c.epoch && a.terminal == b.terminal == c.terminal {
      VersionsTransitive(a.version, b.version, c.version);
      if a.version == b.version == c.version && a.priority == b.priority == c.priority {
        StringsTransitive(a.eventId, b.eventId, c.eventId);
      }
    }
  }

  /** Same epoch, both live or both terminated, yet different lease ids: the one
      case in which the registry refuses a mutation whatever its rank. */
  predicate LeaseClash(m: Mutation, e: Entry) {
    && m.record.leaseEpoch == e.record.leaseEpoch
    && m.kind.ExplicitlyTerminal() == e.record.ExplicitlyTerminal()
    && m.record.leaseId != e.record.leaseId
  }

  /** compareIncoming is the rank order, refined by canonical bytes among equal
      ranks, except that a lease clash always loses. */
  lemma IncomingOrderIsRank(encode: Encoding, m: Mutation, e: Entry)
    ensures CompareIncoming(encode, m, e) ==
            if LeaseClash(m, e) then -1
            else Lex(CompareRank(MutationRank(m), EntryRank(e)),
                     CompareStrings(encode(m.record.Wire()), encode(e.record.Wire())))
  {}

  /** The three comparators that involve a fence are comparison of ranks. */
  lemma FenceOrdersAreRank(m: Mutation, e: Entry, f: Fence, g: Fence)
    ensures IncomingBeatsFence(m, f) <==> CompareRank(MutationRank(m), FenceRank(f)) > 0
    ensures CompareFenceToEntry(f, e) == CompareRank(FenceRank(f), EntryRank(e))
    ensures CompareFences(f, g) == CompareRank(FenceRank(f), FenceRank(g))
  {}

  // ---- compareIncoming as an order on mutations --------------------------

  /** The entry a mutation leaves behind when it is stored. */
  function Stored(m: Mutation): Entry {
    Entry(m.record, m.kind, m.eventId, EMPTY_WINDOW)
  }

  /** Two-way comparison is consistent exactly when the leases do not clash. */
  lemma IncomingAntisymmetric(encode: Encoding, a: Mutation, b: Mutation)
    requires a.Valid() && b.Valid()
    ensures CompareIncoming(encode, a, Stored(b)) == -CompareIncoming(encode, b, Stored(a))
            <==> !LeaseClash(a, Stored(b))
  {
    RankAntisymmetric(MutationRank(a), MutationRank(b));
    StringsAntisymmetric(encode(a.record.Wire()), encode(b.record.Wire()));
    IncomingOrderIsRank(encode, a, Stored(b));
    IncomingOrderIsRank(encode, b, Stored(a));
  }

  lemma IncomingTransitive(encode: Encoding, a: Mutation, b: Mutation, c: Mutation)
    requires a.Valid() && b.Valid() && c.Valid()
    requires !LeaseClash(a, Stored(b)) && !LeaseClash(b, Stored(c)) && !LeaseClash(a, Stored(c))
    requires CompareIncoming(encode, a, Stored(b)) <= 0 && CompareIncoming(encode, b, Stored(c)) <= 0
    ensures CompareIncoming(encode, a, Stored(c)) <= 0
  {
    IncomingOrderIsRank(encode, a, Stored(b));
    IncomingOrderIsRank(encode, b, Stored(c));
    IncomingOrderIsRank(encode, a, Stored(c));
    var ra, rb, rc := MutationRank(a), MutationRank(b), MutationRank(c);
    RankTransitive(ra, rb, rc);
    RankAntisymmetric(ra, rb);
    RankAntisymmetric(rb, rc);
    if ra == rc {
      RankTransitive(rc, ra, rb);
      StringsTransitive(encode(a.record.Wire()), encode(b.record.Wire()), encode(c.record.Wire()));
    }
  }

  /** A mutation compared with its own stored form is a duplicate, even though
      storing gives it a local deadline. */
  lemma IncomingReflexive(encode: Encoding, m: Mutation, e: Entry)
    requires m.Valid() && e.kind == m.kind && e.eventId == m.eventId && e.record.Wire() == m.record.Wire()
    ensures CompareIncoming(encode, m, e) == 0
  {
    IncomingOrderIsRank(encode, m, e);
  }

  // ---- Authorities: ranks with a bottom ----------------------------------

  type Claim = Option<Rank>

  predicate Below(a: Claim, b: Claim) {
    a.None? || (b.Some? && CompareRank(a.value, b.value) <= 0)
  }

  function Join(a: Claim, b: Claim): Claim { if Below(a, b) then b else a }

  /** Claims form a join semilattice. */
  lemma JoinIsLeastUpperBound(a: Claim, b: Claim)
    ensures Below(a, Join(a, b)) && Below(b, Join(a, b))
    ensures forall c :: Below(a, c) && Below(b, c) ==> Below(Join(a, b), c)
    ensures Join(a, b) == Join(b, a) && Join(a, a) == a
  {
    if a.Some? && b.Some? {
      RankAntisymmetric(a.value, b.value);
    }
  }

  lemma BelowTransitive(a: Claim, b: Claim, c: Claim)
    requires Below(a, b) && Below(b, c)
    ensures Below(a, c)
  {
    if a.Some? {
      RankTransitive(a.value, b.value, c.value);
    }
  }

  lemma BelowAntisymmetric(a: Claim, b: Claim)
    requires Below(a, b) && Below(b, a)
    ensures a == b
  {
    if a.Some? {
      RankAntisymmetric(a.value, b.value);
    }
  }

  lemma JoinAssociative(a: Claim, b: Claim, c: Claim)
    ensures Join(Join(a, b), c) == Join(a, Join(b, c))
  {
    var left, right := Join(Join(a, b), c), Join(a, Join(b, c));
    JoinIsLeastUpperBound(a, b);
    JoinIsLeastUpperBound(b, c);
    JoinIsLeastUpperBound(Join(a, b), c);
    JoinIsLeastUpperBound(a, Join(b, c));
    BelowTransitive(a, Join(a, b), left);
    BelowTransitive(b, Join(a, b), left);
    BelowTransitive(b, Join(b, c), right);
    BelowTransitive(c, Join(b, c), right);
    BelowAntisymmetric(left, right);
  }

  // ---- The order in fields and characters --------------------------------

  /** Lower: an older epoch; else live against explicitly terminated; else an older
      version; else a lower kind; else an earlier event id. */
  ghost predicate Lower(a: Rank, b: Rank) {
    || Older(a.epoch, b.epoch)
    || (a.epoch == b.epoch && !a.terminal && b.terminal)
    || (a.epoch == b.epoch && a.terminal == b.terminal && LowerWithin(a, b))
  }

  ghost predicate LowerWithin(a: Rank, b: Rank) {
    || Older(a.version, b.version)
    || (a.version == b.version && a.priority < b.priority)
    || (a.version == b.version && a.priority == b.priority && Precedes(a.eventId, b.eventId))
  }

  lemma RankOrder(a: Rank, b: Rank)
    ensures CompareRank(a, b) < 0 <==> Lower(a, b)
    ensures CompareRank(a, b) > 0 <==> Lower(b, a)
  {
    VersionOrder(a.epoch, b.epoch);
    VersionOrder(a.version, b.version);
    StringsInDictionaryOrder(a.eventId, b.eventId);
  }

  /** What the registry decides about an incoming mutation: it wins exactly when its lease
      does not clash and its rank is higher, or the ranks are equal and its canonical
      bytes come later. */
  lemma IncomingWinsExactly(encode: Encoding, m: Mutation, e: Entry)
    ensures CompareIncoming(encode, m, e) > 0 <==>
              && !LeaseClash(m, e)
              && (|| Lower(EntryRank(e), MutationRank(m))
                  || (EntryRank(e) == MutationRank(m) && Precedes(encode(e.record.Wire()), encode(m.record.Wire()))))
  {
    IncomingOrderIsRank(encode, m, e);
    RankOrder(MutationRank(m), EntryRank(e));
    StringsInDictionaryOrder(encode(m.record.Wire()), encode(e.record.Wire()));
  }

  /** Two mutations of one lease under one version: an expiry beats a heartbeat, which beats
      a registration; and the larger event id beats the smaller of the same kind. */
  lemma KindsBreakTies(encode: Encoding, m: Mutation, e: Entry)
    requires m.record.leaseEpoch == e.record.leaseEpoch && m.record.leaseId == e.record.leaseId
    requires m.record.version == e.record.version && !e.record.ExplicitlyTerminal()
    requires m.kind.Register? || m.kind.Heartbeat? || m.kind.TtlExpire?
    requires e.kind.Register? || e.kind.Heartbeat? || e.kind.TtlExpire?
    requires m.kind != e.kind || m.eventId != e.eventId
    ensures CompareIncoming(encode, m, e) > 0 <==>
              || (m.kind.TtlExpire? && !e.kind.TtlExpire?)
              || (m.kind.Heartbeat? && e.kind.Register?)
              || (m.kind == e.kind && Precedes(e.eventId, m.eventId))
  {
    StringsInDictionaryOrder(m.eventId, e.eventId);
    IncomingOrderIsRank(encode, m, e);
  }

  /** Within one epoch a deregistration or a take-off-line beats a lease that is live or
      merely expired, whatever its version and lease id, and nothing else beats one of them. */
  lemma TerminationWins(encode: Encoding, m: Mutation, e: Entry)
    requires m.record.leaseEpoch == e.record.leaseEpoch
    ensures var final := m.kind.Deregister? || m.kind.DemoOffline?;
            var ended := e.record.status.EVICTED? && (e.record.reason.DEREGISTERED? || e.record.reason.DEMO_OFFLINE?);
            && (final && !ended ==> CompareIncoming(encode, m, e) > 0)
            && (!final && ended ==> CompareIncoming(encode, m, e) < 0)
            && (final && ended && m.record.version == e.record.version && m.record.leaseId == e.record.leaseId
                && (e.kind.Deregister? || e.kind.DemoOffline?) && m.eventId != e.eventId ==>
                  (CompareIncoming(encode, m, e) > 0 <==> Precedes(e.eventId, m.eventId)))
  {
    StringsInDictionaryOrder(m.eventId, e.eventId);
  }
}
