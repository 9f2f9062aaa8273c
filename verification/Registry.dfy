/** The in-memory registry (backend/internal/registry): maps updated in place, each
    lock-held region one method. Its contents after every call are the transition of
    Convergence applied to its contents before. */
module Registry {
  import opened Ordering
  import opened Versions
  import opened Model
  import opened OperationWindow
  import opened Authority
  import opened Cells
  import opened Convergence
  import opened Canonical
  import opened Digest

  datatype ShardDigest = ShardDigest(shard: int, revision: nat, entries: nat, sha: string)

  /** SHA-256 of the JSON of a digest list, as any function of the list. */
  type DigestHash = seq<DigestEntry> -> string

  lemma PutSame(s: Store, key: Key)
    ensures Put(s, key, CellAt(s, key)) == s
  {
    if key in s.entries { assert s.entries[key := s.entries[key]] == s.entries; }
    if key in s.fences { assert s.fences[key := s.fences[key]] == s.fences; }
    assert key !in s.entries ==> s.entries - {key} == s.entries;
    assert key !in s.fences ==> s.fences - {key} == s.fences;
  }

  // ---- What Apply comes to -----------------------------------------------

  /** Neither known nor tied: the comparison decides. */
  predicate Undecided(encode: Encoding, e: Entry, m: Mutation) {
    !e.window.Knows(m.operationId) && CompareIncoming(encode, m, e) != 0
  }

  lemma FreshLoses(encode: Encoding, s: Store, m: Mutation, now: Time)
    requires m.Valid() && m.record.RecordKey() !in s.entries
    requires m.record.RecordKey() in s.fences && !IncomingBeatsFence(m, s.fences[m.record.RecordKey()])
    ensures Step(encode, s, Deliver(m, now)) == s
    ensures ApplyMutation(encode, CellAt(s, m.record.RecordKey()), m, now).1 == Stale(None)
  {
    PutSame(s, m.record.RecordKey());
  }

  lemma FreshWins(encode: Encoding, s: Store, m: Mutation, now: Time)
    requires m.Valid() && m.record.RecordKey() !in s.entries
    requires m.record.RecordKey() in s.fences ==> IncomingBeatsFence(m, s.fences[m.record.RecordKey()])
    ensures var created := Entry(PrepareIncoming(m, now), m.kind, m.eventId,
                                 Remember(EMPTY_WINDOW, m.operationId, m.eventId));
            Step(encode, s, Deliver(m, now)) == Store(s.entries[m.record.RecordKey() := created],
                                                      FencesWith(s.fences, m))
    ensures ApplyMutation(encode, CellAt(s, m.record.RecordKey()), m, now).1
            == Applied(PrepareIncoming(m, now), None, m.eventId)
  {
    PutSame(s, m.record.RecordKey());
  }

  lemma HeldKnows(encode: Encoding, s: Store, m: Mutation, now: Time)
    requires m.Valid() && m.record.RecordKey() in s.entries
    requires s.entries[m.record.RecordKey()].window.Knows(m.operationId)
    ensures var e := s.entries[m.record.RecordKey()];
            && Step(encode, s, Deliver(m, now)) == s
            && ApplyMutation(encode, CellAt(s, m.record.RecordKey()), m, now).1
               == Duplicate(e.record, e.window.events[m.operationId])
  {
    PutSame(s, m.record.RecordKey());
  }

  lemma HeldTies(encode: Encoding, s: Store, m: Mutation, now: Time)
    requires m.Valid() && m.record.RecordKey() in s.entries
    requires var e := s.entries[m.record.RecordKey()];
             !e.window.Knows(m.operationId) && CompareIncoming(encode, m, e) == 0
    ensures var e := s.entries[m.record.RecordKey()];
            && Step(encode, s, Deliver(m, now))
               == s.(entries := s.entries[m.record.RecordKey() :=
                                          e.(window := Remember(e.window, m.operationId, e.eventId))])
            && ApplyMutation(encode, CellAt(s, m.record.RecordKey()), m, now).1 == Duplicate(e.record, e.eventId)
  {
    PutSame(s, m.record.RecordKey());
  }

  lemma HeldLoses(encode: Encoding, s: Store, m: Mutation, now: Time)
    requires m.Valid() && m.record.RecordKey() in s.entries
    requires var e := s.entries[m.record.RecordKey()]; Undecided(encode, e, m) && CompareIncoming(encode, m, e) < 0
    ensures Step(encode, s, Deliver(m, now)) == s
    ensures ApplyMutation(encode, CellAt(s, m.record.RecordKey()), m, now).1
            == Stale(Some(s.entries[m.record.RecordKey()].record))
  {
    PutSame(s, m.record.RecordKey());
  }

  /** updateFence: only an evicted record leaves one. */
  function FencesWith(fences: map<Key, Fence>, m: Mutation): map<Key, Fence> {
    if m.record.status.EVICTED? then fences[m.record.RecordKey() := FenceOf(m)] else fences
  }

  function Replacement(e: Entry, m: Mutation, now: Time): Entry {
    var kept := if Before(e.record.leaseEpoch, m.record.leaseEpoch) then EMPTY_WINDOW else e.window;
    Entry(PrepareIncoming(m, now), m.kind, m.eventId, Remember(kept, m.operationId, m.eventId))
  }

  lemma HeldWins(encode: Encoding, s: Store, m: Mutation, now: Time)
    requires m.Valid() && m.record.RecordKey() in s.entries
    requires var e := s.entries[m.record.RecordKey()]; Undecided(encode, e, m) && CompareIncoming(encode, m, e) > 0
    ensures var e := s.entries[m.record.RecordKey()];
            && Step(encode, s, Deliver(m, now))
               == Store(s.entries[m.record.RecordKey() := Replacement(e, m, now)], FencesWith(s.fences, m))
            && ApplyMutation(encode, CellAt(s, m.record.RecordKey()), m, now).1
               == Applied(PrepareIncoming(m, now), Some(e.record), m.eventId)
  {
    PutSame(s, m.record.RecordKey());
  }

  /** copy(order, order[1:]) and then the new id in the last place. */
  method ShiftIn(order: array<string>, id: string)
    requires order.Length > 0
    modifies order
    ensures order[..] == old(order[..])[1..] + [id]
  {
    for i := 0 to order.Length - 1
      invariant forall j :: 0 <= j < i ==> order[j] == old(order[j + 1])
      invariant forall j :: i <= j < order.Length ==> order[j] == old(order[j])
    {
      order[i] := order[i + 1];
    }
    order[order.Length - 1] := id;
  }

  method RememberOperation(w: Window, operationId: string, eventId: string) returns (r: Window)
    requires w.Valid()
    ensures r == Remember(w, operationId, eventId)
    ensures r.Valid()
  {
    if operationId == "" || operationId in w.events {
      return w;
    }
    if |w.order| == WINDOW_SIZE {
      var order := new string[WINDOW_SIZE](i requires 0 <= i < |w.order| => w.order[i]);
      assert order[..] == w.order;
      ShiftIn(order, operationId);
      r := Window((w.events - {w.order[0]})[operationId := eventId], order[..]);
    } else {
      r := Window(w.events[operationId := eventId], w.order + [operationId]);
    }
  }

  /** How many of the keys are in the shard. */
  function KeysIn(shardOf: ShardIndex, keys: seq<Key>, index: nat): nat {
    if keys == [] then 0
    else KeysIn(shardOf, keys[..|keys| - 1], index) + if ShardOf(shardOf, keys[|keys| - 1]) == index then 1 else 0
  }

  /** Every revision was raised once for each of the keys in its shard. */
  ghost predicate RaisedBy(shardOf: ShardIndex, before: seq<nat>, after: seq<nat>, keys: seq<Key>) {
    |after| == |before| && forall i :: 0 <= i < |after| ==> after[i] == before[i] + KeysIn(shardOf, keys, i)
  }

  lemma RaisedOnce(shardOf: ShardIndex, before: seq<nat>, after: seq<nat>, keys: seq<Key>, k: Key)
    requires RaisedBy(shardOf, before, after, keys) && Bounded(shardOf, |after|)
    ensures var index := ShardOf(shardOf, k);
            RaisedBy(shardOf, before, after[index := after[index] + 1], keys + [k])
  {
    assert (keys + [k])[..|keys|] == keys;
  }

  /** Of the entries not still to be looked at, exactly the collectable ones are gone. */
  ghost predicate Swept(before: map<Key, Entry>, entries: map<Key, Entry>, todo: set<Key>, now: Time, retention: int) {
    && todo <= entries.Keys <= before.Keys
    && (forall k :: k in entries ==> entries[k] == before[k])
    && forall k :: k in before && k !in todo ==> (k in entries <==> !Collectable(before[k], now, retention))
  }

  lemma SweptOneMore(before: map<Key, Entry>, entries: map<Key, Entry>, todo: set<Key>, k: Key, now: Time,
                     retention: int)
    requires Swept(before, entries, todo, now, retention) && k in todo
    ensures Swept(before, if Collectable(entries[k], now, retention) then entries - {k}
                  else entries, todo - {k}, now, retention)
  {}

  lemma SweptAll(encode: Encoding, s: Store, entries: map<Key, Entry>, now: Time, retention: int)
    requires Swept(s.entries, entries, {}, now, retention)
    ensures Step(encode, s, Gc(now, retention)) == s.(entries := entries)
    ensures forall k :: k in s.entries ==> (k !in entries <==> Collectable(s.entries[k], now, retention))
  {
    assert entries == Step(encode, s, Gc(now, retention)).entries;
  }

  class Registry {
    const encode: Encoding
    const shardOf: ShardIndex
    const digestHash: DigestHash
    const shards: nat
    var entries: map<Key, Entry>
    var fences: map<Key, Fence>
    var revisions: seq<nat>

    ghost predicate Valid()
      reads this
    {
      |revisions| == shards && Bounded(shardOf, shards) && StoreOk(Contents())
    }

    function Contents(): Store
      reads this
    {
      Store(entries, fences)
    }

    constructor (shards: nat, encode: Encoding, shardOf: ShardIndex, digestHash: DigestHash)
      requires Bounded(shardOf, shards)
      ensures Valid() && Contents() == EMPTY_STORE && this.shards == shards
      ensures this.encode == encode && this.shardOf == shardOf && this.digestHash == digestHash
    {
      this.shards, this.encode, this.shardOf, this.digestHash := shards, encode, shardOf, digestHash;
      entries, fences := map[], map[];
      revisions := seq(shards, i => 0);
    }

    function RevisionsAfter(key: Key, changed: bool): seq<nat>
      requires |revisions| == shards && Bounded(shardOf, shards)
      reads this
    {
      var index := ShardOf(shardOf, key);
      if changed then revisions[index := revisions[index] + 1] else revisions
    }

    method Apply(m: Mutation, now: Time) returns (r: ApplyResult)
      requires Valid()
      modifies this
      ensures Valid()
      ensures Contents() == Step(encode, old(Contents()), Deliver(m, now))
      ensures r == ApplyMutation(encode, CellAt(old(Contents()), m.record.RecordKey()), m, now).1
      ensures revisions == old(RevisionsAfter(m.record.RecordKey(), r.Applied?))
    {
      ghost var before := Contents();
      var key := m.record.RecordKey();
      StepKeepsOk(encode, before, Deliver(m, now));
      if !m.Valid() {
        PutSame(before, key);
        return Invalid;
      }
      if key !in entries {
        if key in fences && !IncomingBeatsFence(m, fences[key]) {
          FreshLoses(encode, before, m, now);
          return Stale(None);
        }
        FreshWins(encode, before, m, now);
        var incoming := PrepareIncoming(m, now);
        var window := RememberOperation(EMPTY_WINDOW, m.operationId, m.eventId);
        entries := entries[key := Entry(incoming, m.kind, m.eventId, window)];
        fences := FencesWith(fences, m);
        revisions := RevisionsAfter(key, true);
        return Applied(incoming, None, m.eventId);
      }
      r := ApplyToHeld(m, now);
    }

    /** The part of Apply that meets a retained entry. */
    method ApplyToHeld(m: Mutation, now: Time) returns (r: ApplyResult)
      requires Valid() && m.Valid() && m.record.RecordKey() in entries
      modifies this
      ensures |revisions| == shards
      ensures Contents() == Step(encode, old(Contents()), Deliver(m, now))
      ensures r == ApplyMutation(encode, CellAt(old(Contents()), m.record.RecordKey()), m, now).1
      ensures revisions == old(RevisionsAfter(m.record.RecordKey(), r.Applied?))
    {
      var key := m.record.RecordKey();
      assert CellOk(CellAt(Contents(), key), key);
      var current := entries[key];
      if current.window.Knows(m.operationId) {
        HeldKnows(encode, Contents(), m, now);
        return Duplicate(current.record, current.window.events[m.operationId]);
      }
      var decision := CompareIncoming(encode, m, current);
      if decision == 0 {
        HeldTies(encode, Contents(), m, now);
        var window := RememberOperation(current.window, m.operationId, current.eventId);
        entries := entries[key := current.(window := window)];
        return Duplicate(current.record, current.eventId);
      }
      if decision < 0 {
        HeldLoses(encode, Contents(), m, now);
        return Stale(Some(current.record));
      }
      HeldWins(encode, Contents(), m, now);
      r := Replace(m, now);
    }

    /** The incoming record takes the place of the held one. */
    method Replace(m: Mutation, now: Time) returns (r: ApplyResult)
      requires Valid() && m.record.RecordKey() in entries
      modifies this
      ensures |revisions| == shards && revisions == old(RevisionsAfter(m.record.RecordKey(), true))
      ensures entries == old(entries)[m.record.RecordKey() := Replacement(old(entries)[m.record.RecordKey()], m, now)]
      ensures fences == old(FencesWith(fences, m))
      ensures r == Applied(PrepareIncoming(m, now), Some(old(entries)[m.record.RecordKey()].record), m.eventId)
    {
      var key := m.record.RecordKey();
      var current := entries[key];
      assert CellOk(CellAt(Contents(), key), key);
      var incoming := PrepareIncoming(m, now);
      var operations := current.window;
      if CompareVersion(current.record.leaseEpoch, incoming.leaseEpoch) < 0 {
        operations := EMPTY_WINDOW;
      }
      var window := RememberOperation(operations, m.operationId, m.eventId);
      entries := entries[key := Entry(incoming, m.kind, m.eventId, window)];
      fences := FencesWith(fences, m);
      revisions := RevisionsAfter(key, true);
      r := Applied(incoming, Some(current.record), m.eventId);
    }

    method ApplyFence(f: Fence) returns (accepted: bool)
      requires Valid()
      modifies this
      ensures Valid()
      ensures Contents() == Step(encode, old(Contents()), DeliverFence(f))
      ensures accepted <==> f.Valid() && !Below(Some(FenceRank(f)), AuthorityOf(old(Contents()), f.key))
      ensures revisions == old(RevisionsAfter(f.key, accepted))
    {
      ghost var before := Contents();
      StepKeepsOk(encode, before, DeliverFence(f));
      assert CellOk(CellAt(before, f.key), f.key);
      FenceAcceptedIffItOutranks(CellAt(before, f.key), f.key, f);
      PutSame(before, f.key);
      if !f.Valid() {
        return false;
      }
      if f.key in entries {
        if CompareFenceToEntry(f, entries[f.key]) <= 0 {
          return false;
        }
        entries := entries - {f.key};
      }
      if f.key in fences && CompareFences(f, fences[f.key]) <= 0 {
        return false;
      }
      fences := fences[f.key := f];
      revisions := RevisionsAfter(f.key, true);
      accepted := true;
    }

    method MarkDelayed(key: Key, leaseId: string, expected: Version, at: Time) returns (marked: bool)
      requires Valid()
      modifies this
      ensures Valid()
      ensures Contents() == Step(encode, old(Contents()), Delay(key, leaseId, expected, at))
      ensures marked <==> && key in old(entries) && old(entries)[key].record.leaseId == leaseId
                          && old(entries)[key].record.version == expected && old(entries)[key].record.status.ACTIVE?
      ensures marked ==> && entries.Keys == old(entries).Keys && fences == old(fences)
                         && entries[key].record.status.DELAYED? && entries[key].record.reason.HEARTBEAT_DELAYED?
                         && entries[key].record.updatedAt == at
      ensures revisions == old(RevisionsAfter(key, marked))
    {
      ghost var before := Contents();
      StepKeepsOk(encode, before, Delay(key, leaseId, expected, at));
      PutSame(before, key);
      if key !in entries || entries[key].record.leaseId != leaseId
         || CompareVersion(entries[key].record.version, expected) != 0
         || !entries[key].record.status.ACTIVE?
      {
        return false;
      }
      var e := entries[key];
      entries := entries[key := e.(record := e.record.(status := DELAYED, reason := HEARTBEAT_DELAYED,
                                                       updatedAt := at))];
      revisions := RevisionsAfter(key, true);
      marked := true;
    }

    /** Collection in any iteration order: removes exactly the tombstones older than
        the retention and reports each once. */
    method GC(now: Time, retention: int) returns (removed: seq<Key>)
      requires Valid()
      modifies this
      ensures Valid()
      ensures Contents() == Step(encode, old(Contents()), Gc(now, retention))
      ensures NoRepeats(removed)
      ensures forall k :: k in removed <==> k in old(entries) && Collectable(old(entries)[k], now, retention)
      ensures forall i :: 0 <= i < shards ==> revisions[i] == old(revisions[i]) + KeysIn(shardOf, removed, i)
    {
      ghost var before := Contents();
      StepKeepsOk(encode, before, Gc(now, retention));
      var todo := entries.Keys;
      removed := [];
      while todo != {}
        invariant fences == before.fences && Bounded(shardOf, shards)
                  && RaisedBy(shardOf, old(revisions), revisions, removed)
        invariant Swept(before.entries, entries, todo, now, retention)
        invariant NoRepeats(removed) && forall k :: k in removed <==> k in before.entries && k !in entries
        decreases todo
      {
        var k :| k in todo;
        SweptOneMore(before.entries, entries, todo, k, now, retention);
        todo := todo - {k};
        if Collectable(entries[k], now, retention) {
          RaisedOnce(shardOf, old(revisions), revisions, removed, k);
          entries := entries - {k};
          removed := removed + [k];
          revisions := RevisionsAfter(k, true);
        }
      }
      SweptAll(encode, before, entries, now, retention);
    }

    method MutationsForShard(index: int, now: Time) returns (r: Option<seq<Mutation>>)
      requires Valid()
      ensures r == if 0 <= index < shards then Some(ExportList(Contents(), shardOf, index, now)) else None
      ensures r.Some? ==> InKeyOrder(r.value, MutationKey)
    {
      if !(0 <= index < shards) {
        return None;
      }
      KeysAreValid(Contents());
      ghost var f := Exports(Contents(), now);
      ghost var order: seq<Key> := [];
      var todo := EntryKeys(Contents(), shardOf, index);
      ghost var keys := todo;
      var result := [];
      while todo != {}
        invariant todo <= keys && NoRepeats(order)
        invariant forall k :: k in order <==> k in keys && k !in todo
        invariant result == Map(f, order)
        decreases todo
      {
        var k :| k in todo;
        todo := todo - {k};
        MapAppend(f, order, k);
        result := result + [Export(entries[k], now)];
        order := order + [k];
      }
      SortedIsListing(order, keys, f, MutationKey);
      ExportsInOrder(Contents(), shardOf, index, now);
      r := Some(SortSlice(result, MutationKey));
    }

    /** All fences, sorted by key. */
    method Fences() returns (r: seq<Fence>)
      requires Valid()
      ensures r == FenceList(Contents())
      ensures InKeyOrder(r, FenceKey)
    {
      KeysAreValid(Contents());
      ghost var f := HeldFences(Contents());
      ghost var order: seq<Key> := [];
      var todo := fences.Keys;
      r := [];
      while todo != {}
        invariant todo <= fences.Keys && NoRepeats(order)
        invariant forall k :: k in order <==> k in fences && k !in todo
        invariant r == Map(f, order)
        decreases todo
      {
        var k :| k in todo;
        todo := todo - {k};
        MapAppend(f, order, k);
        r := r + [fences[k]];
        order := order + [k];
      }
      SortedIsListing(order, fences.Keys, f, FenceKey);
      FencesInOrder(Contents());
      r := SortSlice(r, FenceKey);
    }

    /** Number, revision, entry count and hash of a shard. */
    ghost function DigestAt(index: nat): ShardDigest
      requires Valid() && index < shards
      reads this
    {
      var list := DigestList(Contents(), shardOf, index);
      ShardDigest(index, revisions[index], |list|, digestHash(list))
    }

    /** The digest of every shard, in shard order. */
    method Digests() returns (r: seq<ShardDigest>)
      requires Valid()
      ensures |r| == shards
      ensures forall i :: 0 <= i < shards ==> r[i] == DigestAt(i)
    {
      r := [];
      for i := 0 to shards
        invariant |r| == i
        invariant forall j :: 0 <= j < i ==> r[j] == DigestAt(j)
      {
        var d := Digest(i);
        ghost var before := r;
        r := r + [d.value];
        forall j | 0 <= j < i + 1
          ensures r[j] == DigestAt(j)
        {
          assert j < i ==> r[j] == before[j];
        }
      }
    }

    /** One line per full entry of the shard, in the map's iteration order. */
    method EntryLines(index: nat) returns (list: seq<DigestEntry>, ghost order: seq<Key>)
      requires Valid() && index < shards
      ensures NoRepeats(order) && forall k :: k in order <==> k in EntryKeys(Contents(), shardOf, index)
      ensures list == Map(ViewEntries(View(Contents(), shardOf, index)), order)
    {
      ghost var f := ViewEntries(View(Contents(), shardOf, index));
      ghost var keys := EntryKeys(Contents(), shardOf, index);
      var todo := EntryKeys(Contents(), shardOf, index);
      list, order := [], [];
      while todo != {}
        invariant todo <= keys && NoRepeats(order)
        invariant forall k :: k in order <==> k in keys && k !in todo
        invariant list == Map(f, order)
        decreases todo
      {
        var k :| k in todo;
        todo := todo - {k};
        MapAppend(f, order, k);
        list := list + [DigestEntry(k, EntrySummary(entries[k]))];
        order := order + [k];
      }
    }

    /** One line per fence of the shard whose entry is gone. */
    method FenceLines(index: nat, lines: seq<DigestEntry>, ghost listed: seq<Key>)
        returns (list: seq<DigestEntry>, ghost order: seq<Key>)
      requires Valid() && index < shards
      requires NoRepeats(listed) && forall k :: k in listed <==> k in EntryKeys(Contents(), shardOf, index)
      requires lines == Map(ViewEntries(View(Contents(), shardOf, index)), listed)
      ensures NoRepeats(order) && forall k :: k in order <==> k in ShardKeys(Contents(), shardOf, index)
      ensures list == Map(ViewEntries(View(Contents(), shardOf, index)), order)
    {
      ghost var f := ViewEntries(View(Contents(), shardOf, index));
      var bare := set k | k in fences && k !in entries && ShardOf(shardOf, k) == index;
      var todo := bare;
      list, order := lines, listed;
      while todo != {}
        invariant todo <= bare && NoRepeats(order)
        invariant forall k :: k in order <==> k in listed || (k in bare && k !in todo)
        invariant forall k :: k in order ==> k in View(Contents(), shardOf, index)
        invariant list == Map(f, order)
        decreases todo
      {
        var k :| k in todo;
        todo := todo - {k};
        MapAppend(f, order, k);
        list := list + [DigestEntry(k, FenceSummary(fences[k]))];
        order := order + [k];
      }
    }

    method Digest(index: int) returns (r: Option<ShardDigest>)
      requires Valid()
      ensures r == if 0 <= index < shards then Some(DigestAt(index)) else None
    {
      if !(0 <= index < shards) {
        return None;
      }
      KeysAreValid(Contents());
      var list, order := EntryLines(index);
      list, order := FenceLines(index, list, order);
      ViewKeysAreValid(Contents(), shardOf, index);
      assert View(Contents(), shardOf, index).Keys == ShardKeys(Contents(), shardOf, index);
      SortedIsListing(order, View(Contents(), shardOf, index).Keys, ViewEntries(View(Contents(), shardOf, index)),
                      DigestKey);
      list := SortSlice(list, DigestKey);
      r := Some(ShardDigest(index, revisions[index], |list|, digestHash(list)));
    }
  }
}
