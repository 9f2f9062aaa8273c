/** What a shard shows its peers (backend/internal/registry/digest.go): the list a
    digest hashes, and the mutations anti-entropy exports. */
module Digest {
  import opened Ordering
  import opened Versions
  import opened Model
  import opened OperationWindow
  import opened Authority
  import opened Cells
  import opened Convergence
  import opened Canonical

  /** The shard of a service: FNV of its name under the mask, as any function. */
  type ShardIndex = string -> nat

  datatype State = Live | Tombstone(reason: Reason) | FenceOnly

  /** What a digest says of one key. */
  datatype Summary = Summary(leaseEpoch: Version, version: Version, generation: UInt64, state: State, kind: Kind,
                             eventId: string)

  datatype DigestEntry = DigestEntry(key: Key, summary: Summary)

  function EntrySummary(e: Entry): Summary {
    var state := if e.record.status.EVICTED? then Tombstone(e.record.reason) else Live;
    Summary(e.record.leaseEpoch, e.record.version, e.record.generation, state, e.kind, e.eventId)
  }

  function FenceSummary(f: Fence): Summary {
    Summary(f.leaseEpoch, f.version, f.generation, FenceOnly, f.kind, f.eventId)
  }

  predicate Known(s: Store, key: Key) { key in s.entries || key in s.fences }

  function SummaryAt(s: Store, key: Key): Summary
    requires Known(s, key)
  {
    if key in s.entries then EntrySummary(s.entries[key]) else FenceSummary(s.fences[key])
  }

  function DigestKey(d: DigestEntry): Key { d.key }
  function MutationKey(m: Mutation): Key { m.record.RecordKey() }
  function FenceKey(f: Fence): Key { f.key }

  // ---- Shards ------------------------------------------------------------

  function ShardOf(shardOf: ShardIndex, key: Key): nat { shardOf(key.service) }

  ghost predicate Bounded(shardOf: ShardIndex, shards: nat) { forall service :: shardOf(service) < shards }

  function EntryKeys(s: Store, shardOf: ShardIndex, index: nat): set<Key>
  {
    set k | k in s.entries && ShardOf(shardOf, k) == index
  }

  function ShardKeys(s: Store, shardOf: ShardIndex, index: nat): set<Key>
  {
    set k | k in s.entries.Keys + s.fences.Keys && ShardOf(shardOf, k) == index
  }

  lemma KeysAreValid(s: Store)
    requires StoreOk(s)
    ensures forall k :: Known(s, k) ==> k.Valid()
    ensures ValidSet(s.entries.Keys + s.fences.Keys)
    ensures forall k :: k in s.entries ==> EntryOk(s.entries[k]) && s.entries[k].record.RecordKey() == k
    ensures forall k :: k in s.fences ==> s.fences[k].Valid() && s.fences[k].key == k
  {
    forall k | Known(s, k)
      ensures k.Valid()
      ensures k in s.entries ==> EntryOk(s.entries[k]) && s.entries[k].record.RecordKey() == k
      ensures k in s.fences ==> s.fences[k].Valid() && s.fences[k].key == k
    {
      assert CellOk(CellAt(s, k), k);
    }
  }

  /** What the digest may depend on: nothing but this map. */
  function View(s: Store, shardOf: ShardIndex, index: nat): map<Key, Summary> {
    map k | k in ShardKeys(s, shardOf, index) :: SummaryAt(s, k)
  }

  function ViewEntries(v: map<Key, Summary>): Key --> DigestEntry { k requires k in v => DigestEntry(k, v[k]) }

  ghost function ViewList(v: map<Key, Summary>): seq<DigestEntry>
    requires ValidSet(v.Keys)
  {
    Listing(v.Keys, ViewEntries(v))
  }

  lemma ViewKeysAreValid(s: Store, shardOf: ShardIndex, index: nat)
    requires StoreOk(s)
    ensures ValidSet(View(s, shardOf, index).Keys)
  {
    KeysAreValid(s);
  }

  /** The list a shard's digest hashes. */
  ghost function DigestList(s: Store, shardOf: ShardIndex, index: nat): seq<DigestEntry>
    requires StoreOk(s)
  {
    ViewKeysAreValid(s, shardOf, index);
    ViewList(View(s, shardOf, index))
  }

  /** A list says of every key what its map says. */
  lemma SameListSameEntry(v: map<Key, Summary>, w: map<Key, Summary>, key: Key)
    requires ValidSet(v.Keys) && ValidSet(w.Keys) && ViewList(v) == ViewList(w) && key in v
    ensures key in w && v[key] == w[key]
  {
    var ov, ow := KeyOrder(v.Keys), KeyOrder(w.Keys);
    assert key in ov;
    var i :| 0 <= i < |ov| && ov[i] == key;
    assert |ViewList(v)| == |ov| && |ViewList(w)| == |ow|;
    MapAt(ViewEntries(v), ov, i);
    MapAt(ViewEntries(w), ow, i);
    assert ow[i] in ow;
  }

  /** Two lists are equal exactly when the maps are. */
  lemma ViewListInjective(v: map<Key, Summary>, w: map<Key, Summary>)
    requires ValidSet(v.Keys) && ValidSet(w.Keys)
    ensures ViewList(v) == ViewList(w) <==> v == w
  {
    if ViewList(v) == ViewList(w) {
      SameListSameView(v, w);
    }
  }

  lemma SameListSameView(v: map<Key, Summary>, w: map<Key, Summary>)
    requires ValidSet(v.Keys) && ValidSet(w.Keys) && ViewList(v) == ViewList(w)
    ensures v == w
  {
    forall key | key in v
      ensures key in w && v[key] == w[key]
    {
      SameListSameEntry(v, w, key);
    }
    forall key | key in w
      ensures key in v
    {
      SameListSameEntry(w, v, key);
    }
    SameMaps(v, w);
  }

  lemma SameMaps(v: map<Key, Summary>, w: map<Key, Summary>)
    requires forall key :: key in v ==> key in w && v[key] == w[key]
    requires forall key :: key in w ==> key in v
    ensures v == w
  {}

  /** Two shards hash the same list exactly when they have the same view, whatever
      their insertion order, operation windows, delay marks or shard functions. */
  lemma DigestIsCanonical(s: Store, t: Store, shardOf: ShardIndex, other: ShardIndex, index: nat)
    requires StoreOk(s) && StoreOk(t)
    ensures DigestList(s, shardOf, index) == DigestList(t, other, index)
            <==> View(s, shardOf, index) == View(t, other, index)
  {
    ViewKeysAreValid(s, shardOf, index);
    ViewKeysAreValid(t, other, index);
    ViewListInjective(View(s, shardOf, index), View(t, other, index));
  }

  /** Marking delayed changes no view. */
  lemma DelayKeepsView(encode: Encoding, s: Store, op: Op, shardOf: ShardIndex, index: nat)
    requires op.Delay?
    ensures View(Step(encode, s, op), shardOf, index) == View(s, shardOf, index)
  {
    var t := Step(encode, s, op);
    assert t.entries.Keys == s.entries.Keys && t.fences.Keys == s.fences.Keys;
    forall k | Known(s, k)
      ensures SummaryAt(t, k) == SummaryAt(s, k)
    {
      StepIsPerKey(encode, s, op, k);
      assert CellAt(t, k) == StepCell(encode, CellAt(s, k), k, op);
    }
  }

  // ---- Export ------------------------------------------------------------

  /** Whole milliseconds left on a live lease at export time. */
  function RemainingMillis(e: Entry, now: Time): int {
    var left := Saturate(e.record.leaseDeadline - now);
    if e.record.Discoverable() && e.record.HasDeadline() && left > 0 then left / NANOS_PER_MILLI else 0
  }

  /** What a mutation looks like after the JSON round trip. */
  function OverWire(m: Mutation): Mutation { m.(record := m.record.Wire()) }

  /** The local DELAYED projection is undone; no operation id travels. */
  function Export(e: Entry, now: Time): Mutation {
    var record :=
      if e.record.status.DELAYED? then
        e.record.(status := ACTIVE, reason := if e.kind.Register? then REGISTERED else HEARTBEAT_OK)
      else e.record;
    Mutation(e.kind, record, e.eventId, "", RemainingMillis(e, now))
  }

  function Exports(s: Store, now: Time): Key --> Mutation {
    k requires k in s.entries => Export(s.entries[k], now)
  }

  function HeldFences(s: Store): Key --> Fence { k requires k in s.fences => s.fences[k] }

  ghost function ExportList(s: Store, shardOf: ShardIndex, index: nat, now: Time): seq<Mutation>
    requires StoreOk(s)
  {
    KeysAreValid(s);
    Listing(EntryKeys(s, shardOf, index), Exports(s, now))
  }

  ghost function FenceList(s: Store): seq<Fence>
    requires StoreOk(s)
  {
    KeysAreValid(s);
    Listing(s.fences.Keys, HeldFences(s))
  }

  /** An export carries exactly the authority of the entry, and every receiver
      accepts it, exactly unless the entry's kind is DELAYED or a stamp is zero. */
  lemma ExportKeepsAuthority(e: Entry, now: Time)
    requires EntryOk(e)
    ensures Export(e, now).Valid() <==> !e.kind.Delayed? && e.record.Stamped()
    ensures Export(e, now).Valid() ==> MutationRank(Export(e, now)) == EntryRank(e)
    ensures Export(e, now).record.leaseId == e.record.leaseId
  {
    assert RemainingMillis(e, now) >= 0;
  }

  /** Relaying a lease extends it by the transit time at most, rounding what is left down
      to whole milliseconds on the way (and to the longest Go duration), and keeps it dated
      if and only if at least one whole millisecond was left: with less, the receiver
      holds a live record that it will never expire by itself. */
  lemma RelayedDeadline(e: Entry, exported: Time, arrived: Time)
    requires e.kind.Register? || e.kind.Heartbeat?
    requires e.record.Discoverable() && e.record.HasDeadline() && arrived > ZERO_TIME
    ensures var left, relayed := Saturate(e.record.leaseDeadline - exported),
            PrepareIncoming(Export(e, exported), arrived);
            && relayed.Discoverable()
            && (relayed.HasDeadline() <==> left >= NANOS_PER_MILLI)
            && (relayed.HasDeadline() ==> left - NANOS_PER_MILLI < relayed.leaseDeadline - arrived <= left)
  {
    var left := Saturate(e.record.leaseDeadline - exported);
    if left > 0 {
      assert left / NANOS_PER_MILLI * NANOS_PER_MILLI <= left < left / NANOS_PER_MILLI * NANOS_PER_MILLI
             + NANOS_PER_MILLI;
    }
  }

  /** A lease exported in its last millisecond arrives live and undated. */
  lemma LastMillisecondIsLost()
    ensures var record := Instance("s", "i", "reg", Endpoint("h", 80, "http", map[]), ACTIVE, HEARTBEAT_OK, 1, "lease",
                                   Version(1, 0, "a"), Version(2, 0, "a"), "a", 0, 0, 0, None, false, 30_000_000_000,
                                       30_000);
            var e := Entry(record, Heartbeat, "evt", EMPTY_WINDOW);
            var relayed := PrepareIncoming(Export(e, 29_999_500_000), 29_999_600_000);
            EntryOk(e) && Export(e, 29_999_500_000).Valid() && relayed.Discoverable() && !relayed.HasDeadline()
  {}

  /** What a lease relayed to another node is there: the same record, but for the local
      delay mark, which is undone, and the local deadline. */
  lemma RelayedRecord(e: Entry, exported: Time, arrived: Time)
    requires EntryOk(e) && !e.kind.Delayed?
    ensures var relayed := PrepareIncoming(OverWire(Export(e, exported)), arrived);
            && relayed.status == StatusOf(e.kind) && relayed.reason == ReasonOf(e.kind)
            && relayed.(status := e.record.status, reason := e.record.reason).Wire() == e.record.Wire()
    ensures Export(e, exported).kind == e.kind && Export(e, exported).eventId == e.eventId
  {}

  /** The export of a shard: its entries, each once, in dictionary order of their keys. */
  lemma ExportsInOrder(s: Store, shardOf: ShardIndex, index: nat, now: Time)
    requires StoreOk(s)
    ensures InKeyOrder(ExportList(s, shardOf, index, now), MutationKey)
    ensures var keys := set k | k in s.entries && shardOf(k.service) == index;
            ListsExactly(ExportList(s, shardOf, index, now), keys, Exports(s, now))
  {
    KeysAreValid(s);
    assert EntryKeys(s, shardOf, index) == set k | k in s.entries && shardOf(k.service) == index;
    ListingInOrder(EntryKeys(s, shardOf, index), Exports(s, now), MutationKey);
  }

  /** The fences, each once, in dictionary order of their keys. */
  lemma FencesInOrder(s: Store)
    requires StoreOk(s)
    ensures InKeyOrder(FenceList(s), FenceKey) && ListsExactly(FenceList(s), s.fences.Keys, HeldFences(s))
  {
    KeysAreValid(s);
    ListingInOrder(s.fences.Keys, HeldFences(s), FenceKey);
  }

  /** The list a digest hashes: one line per key of the shard, in the same order. */
  lemma DigestLinesInOrder(s: Store, shardOf: ShardIndex, index: nat)
    requires StoreOk(s)
    ensures var v := View(s, shardOf, index);
            && (forall k :: k in v <==> Known(s, k) && shardOf(k.service) == index)
            && InKeyOrder(DigestList(s, shardOf, index), DigestKey)
            && ListsExactly(DigestList(s, shardOf, index), v.Keys, ViewEntries(v))
  {
    ViewKeysAreValid(s, shardOf, index);
    ListingInOrder(View(s, shardOf, index).Keys, ViewEntries(View(s, shardOf, index)), DigestKey);
  }
}
