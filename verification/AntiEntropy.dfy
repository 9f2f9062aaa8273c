/** Anti-entropy (backend/internal/gossip/anti_entropy.go): one node pulls, page by
    page, everything in the shards whose digests differ. A completed pull leaves it
    with the join of both registries' authorities. */
module AntiEntropy {
  import opened Ordering
  import opened Versions
  import opened Model
  import opened Authority
  import opened Cells
  import opened Convergence
  import opened Canonical
  import opened Digest
  import opened Clock
  import opened Operations
  import opened Registry
  import opened Service

  const PAGE_SIZE: nat := 200

  datatype PullRequest = PullRequest(digests: seq<ShardDigest>, cursor: nat)

  datatype Response = Response(mutations: seq<Mutation>, fences: seq<Fence>, digests: seq<ShardDigest>,
                               nextCursor: Option<nat>)

  datatype SyncItem = MutationItem(m: Mutation) | FenceItem(f: Fence)

  // ---- What the server offers --------------------------------------------

  /** The stored thing an item is made from; unlike the item, it does not depend on
      the time of export. */
  datatype Ref = EntryRef(key: Key, entry: Entry) | FenceRef(fence: Fence)
  {
    function RefKey(): Key { if EntryRef? then key else fence.key }

    function RefClaim(): Claim { if EntryRef? then Some(EntryRank(entry)) else Some(FenceRank(fence)) }

    function ItemAt(now: Time): SyncItem {
      if EntryRef? then MutationItem(Export(entry, now)) else FenceItem(fence)
    }
  }

  predicate Held(s: Store, ref: Ref) {
    match ref
    case EntryRef(key, entry) => key in s.entries && s.entries[key] == entry
    case FenceRef(fence) => fence.key in s.fences && s.fences[fence.key] == fence
  }

  function Items(refs: seq<Ref>, now: Time): seq<SyncItem> {
    if refs == [] then [] else Items(refs[..|refs| - 1], now) + [refs[|refs| - 1].ItemAt(now)]
  }

  lemma {:induction false} ItemsAt(refs: seq<Ref>, now: Time)
    ensures |Items(refs, now)| == |refs|
    ensures forall i :: 0 <= i < |refs| ==> Items(refs, now)[i] == refs[i].ItemAt(now)
  {
    if refs != [] {
      ItemsAt(refs[..|refs| - 1], now);
    }
  }

  lemma {:induction false} ItemsAppend(a: seq<Ref>, b: seq<Ref>, now: Time)
    ensures Items(a + b, now) == Items(a, now) + Items(b, now)
  {
    if b == [] {
      assert a + b == a;
    } else {
      assert (a + b)[..|a + b| - 1] == a + b[..|b| - 1];
      ItemsAppend(a, b[..|b| - 1], now);
    }
  }

  function EntryRefs(s: Store, keys: seq<Key>): seq<Ref> {
    if keys == [] then []
    else EntryRefs(s, keys[..|keys| - 1])
         + if keys[|keys| - 1] in s.entries then [EntryRef(keys[|keys| - 1], s.entries[keys[|keys| - 1]])] else []
  }

  /** Each shard's entries in export order. */
  ghost function Orders(s: Store, shardOf: ShardIndex, shards: nat): (orders: seq<seq<Key>>)
    requires StoreOk(s)
    ensures |orders| == shards
    ensures forall i, k :: 0 <= i < shards ==> (k in orders[i] <==> k in s.entries && ShardOf(shardOf, k) == i)
    ensures forall i :: 0 <= i < shards ==> Ascending(orders[i])
  {
    KeysAreValid(s);
    seq(shards, i requires 0 <= i < shards => KeyOrder(EntryKeys(s, shardOf, i)))
  }

  /** The entries of the mismatched shards below `upTo`, shard by shard. */
  function RefsBelow(s: Store, orders: seq<seq<Key>>, mismatched: set<int>, upTo: nat): seq<Ref>
    requires upTo <= |orders|
  {
    if upTo == 0 then []
    else RefsBelow(s, orders, mismatched, upTo - 1)
         + if upTo - 1 in mismatched then EntryRefs(s, orders[upTo - 1]) else []
  }

  /** The fences of the mismatched shards, in the order given. */
  function FenceRefs(fs: seq<Fence>, shardOf: ShardIndex, mismatched: set<int>): seq<Ref> {
    if fs == [] then []
    else FenceRefs(fs[..|fs| - 1], shardOf, mismatched)
         + if ShardOf(shardOf, fs[|fs| - 1].key) in mismatched then [FenceRef(fs[|fs| - 1])] else []
  }

  /** Everything on offer for these shards, in paging order. */
  function AllRefs(s: Store, orders: seq<seq<Key>>, fences: seq<Fence>, shardOf: ShardIndex,
                   mismatched: set<int>): seq<Ref> {
    RefsBelow(s, orders, mismatched, |orders|) + FenceRefs(fences, shardOf, mismatched)
  }

  lemma {:induction false} EntryRefsHave(s: Store, keys: seq<Key>, ref: Ref)
    ensures ref in EntryRefs(s, keys) <==> ref.EntryRef? && ref.key in keys && Held(s, ref)
  {
    if keys != [] {
      EntryRefsHave(s, keys[..|keys| - 1], ref);
      assert keys == keys[..|keys| - 1] + [keys[|keys| - 1]];
    }
  }

  lemma {:induction false} RefsBelowHave(s: Store, orders: seq<seq<Key>>, mismatched: set<int>, upTo: nat, ref: Ref)
    requires upTo <= |orders|
    ensures ref in RefsBelow(s, orders, mismatched, upTo)
            <==> ref.EntryRef? && Held(s, ref) && exists i :: 0 <= i < upTo && i in mismatched && ref.key in orders[i]
  {
    if upTo > 0 {
      RefsBelowHave(s, orders, mismatched, upTo - 1, ref);
      EntryRefsHave(s, orders[upTo - 1], ref);
    }
  }

  lemma {:induction false} FenceRefsHave(fs: seq<Fence>, shardOf: ShardIndex, mismatched: set<int>, ref: Ref)
    ensures ref in FenceRefs(fs, shardOf, mismatched)
            <==> ref.FenceRef? && ref.fence in fs && ShardOf(shardOf, ref.fence.key) in mismatched
  {
    if fs != [] {
      FenceRefsHave(fs[..|fs| - 1], shardOf, mismatched, ref);
      assert fs == fs[..|fs| - 1] + [fs[|fs| - 1]];
    }
  }

  lemma {:induction false} HeldFencesHave(s: Store, keys: seq<Key>, f: Fence)
    requires forall k :: k in keys ==> k in s.fences && s.fences[k].key == k
    ensures f in Map(HeldFences(s), keys) <==> f.key in keys && s.fences[f.key] == f
  {
    if keys != [] {
      HeldFencesHave(s, keys[1..], f);
      assert keys == [keys[0]] + keys[1..];
    }
  }

  lemma FenceListHas(s: Store, f: Fence)
    requires StoreOk(s)
    ensures f in FenceList(s) <==> f.key in s.fences && s.fences[f.key] == f
  {
    KeysAreValid(s);
    HeldFencesHave(s, KeyOrder(s.fences.Keys), f);
  }

  /** The server offers exactly the entries and fences of the mismatched shards. */
  lemma AllRefsAre(s: Store, shardOf: ShardIndex, shards: nat, mismatched: set<int>, ref: Ref)
    requires StoreOk(s) && Bounded(shardOf, shards)
    ensures ref in AllRefs(s, Orders(s, shardOf, shards), FenceList(s), shardOf, mismatched)
            <==> Held(s, ref) && ShardOf(shardOf, ref.RefKey()) in mismatched
  {
    var orders, fences := Orders(s, shardOf, shards), FenceList(s);
    RefsBelowHave(s, orders, mismatched, |orders|, ref);
    FenceRefsHave(fences, shardOf, mismatched, ref);
    if ref.FenceRef? {
      FenceListHas(s, ref.fence);
    } else if Held(s, ref) {
      assert ref.key in orders[ShardOf(shardOf, ref.key)];
    }
  }

  /** Every entry is offered before every fence. */
  lemma FencesComeLast(s: Store, orders: seq<seq<Key>>, fences: seq<Fence>, shardOf: ShardIndex, mismatched: set<int>,
                       i: nat, j: nat)
    requires i <= j < |AllRefs(s, orders, fences, shardOf, mismatched)|
    requires AllRefs(s, orders, fences, shardOf, mismatched)[i].FenceRef?
    ensures AllRefs(s, orders, fences, shardOf, mismatched)[j].FenceRef?
  {
    var entries, rest := RefsBelow(s, orders, mismatched, |orders|), FenceRefs(fences, shardOf, mismatched);
    if i < |entries| {
      RefsBelowHave(s, orders, mismatched, |orders|, entries[i]);
    } else {
      FenceRefsHave(fences, shardOf, mismatched, rest[j - |entries|]);
    }
  }

  /** The paging order: entries by shard, and within a shard by key; then fences by key. */
  ghost predicate InPagingOrder(refs: seq<Ref>, shardOf: ShardIndex) {
    forall i, j :: 0 <= i < j < |refs| ==> PagedBefore(refs[i], refs[j], shardOf)
  }

  ghost predicate PagedBefore(a: Ref, b: Ref, shardOf: ShardIndex) {
    || (a.EntryRef? && b.FenceRef?)
    || (a.EntryRef? && b.EntryRef? && shardOf(a.key.service) < shardOf(b.key.service))
    || (a.EntryRef? && b.EntryRef? && shardOf(a.key.service) == shardOf(b.key.service)
        && Precedes(a.key.Text(), b.key.Text()))
    || (a.FenceRef? && b.FenceRef? && Precedes(a.fence.key.Text(), b.fence.key.Text()))
  }

  lemma Concatenated(a: seq<Ref>, b: seq<Ref>, shardOf: ShardIndex)
    requires InPagingOrder(a, shardOf) && InPagingOrder(b, shardOf)
    requires forall x, y :: x in a && y in b ==> PagedBefore(x, y, shardOf)
    ensures InPagingOrder(a + b, shardOf)
  {
    var all := a + b;
    forall i, j | 0 <= i < j < |all|
      ensures PagedBefore(all[i], all[j], shardOf)
    {
      if i < |a| <= j {
        assert all[i] == a[i] && all[j] == b[j - |a|];
      } else if j < |a| {
        assert all[i] == a[i] && all[j] == a[j];
      } else {
        assert all[i] == b[i - |a|] && all[j] == b[j - |a|];
      }
    }
  }

  lemma LastKeyIsLater(keys: seq<Key>, k: Key)
    requires keys != [] && Ascending(keys) && k in keys[..|keys| - 1]
    ensures Precedes(k.Text(), keys[|keys| - 1].Text())
  {
    var i :| 0 <= i < |keys| - 1 && keys[i] == k;
    StringsInDictionaryOrder(k.Text(), keys[|keys| - 1].Text());
  }

  lemma {:induction false} EntriesPaged(s: Store, keys: seq<Key>, shardOf: ShardIndex, index: nat)
    requires Ascending(keys) && forall k :: k in keys ==> shardOf(k.service) == index
    ensures InPagingOrder(EntryRefs(s, keys), shardOf)
  {
    if keys != [] {
      var init, last := keys[..|keys| - 1], keys[|keys| - 1];
      assert Ascending(init) && forall k :: k in init ==> k in keys;
      EntriesPaged(s, init, shardOf, index);
      var more := if last in s.entries then [EntryRef(last, s.entries[last])] else [];
      assert last in keys;
      forall x, y | x in EntryRefs(s, init) && y in more
        ensures PagedBefore(x, y, shardOf)
      {
        EntryRefsHave(s, init, x);
        LastKeyIsLater(keys, x.key);
      }
      Concatenated(EntryRefs(s, init), more, shardOf);
    }
  }

  lemma {:induction false} ShardsPaged(s: Store, shardOf: ShardIndex, orders: seq<seq<Key>>, mismatched: set<int>,
                                       upTo: nat)
    requires upTo <= |orders|
    requires forall i :: 0 <= i < |orders| ==> Ascending(orders[i])
    requires forall i, k :: 0 <= i < |orders| && k in orders[i] ==> shardOf(k.service) == i
    ensures InPagingOrder(RefsBelow(s, orders, mismatched, upTo), shardOf)
  {
    if upTo > 0 {
      ShardsPaged(s, shardOf, orders, mismatched, upTo - 1);
      EntriesPaged(s, orders[upTo - 1], shardOf, upTo - 1);
      var before := RefsBelow(s, orders, mismatched, upTo - 1);
      var more := if upTo - 1 in mismatched then EntryRefs(s, orders[upTo - 1]) else [];
      forall x, y | x in before && y in more
        ensures PagedBefore(x, y, shardOf)
      {
        RefsBelowHave(s, orders, mismatched, upTo - 1, x);
        EntryRefsHave(s, orders[upTo - 1], y);
      }
      Concatenated(before, more, shardOf);
    }
  }

  lemma {:induction false} FencesPaged(fs: seq<Fence>, shardOf: ShardIndex, mismatched: set<int>)
    requires InKeyOrder(fs, FenceKey)
    ensures InPagingOrder(FenceRefs(fs, shardOf, mismatched), shardOf)
  {
    if fs != [] {
      var init, last := fs[..|fs| - 1], fs[|fs| - 1];
      assert forall i :: 0 <= i < |init| ==> init[i] == fs[i];
      FencesPaged(init, shardOf, mismatched);
      var more := if ShardOf(shardOf, last.key) in mismatched then [FenceRef(last)] else [];
      forall x, y | x in FenceRefs(init, shardOf, mismatched) && y in more
        ensures PagedBefore(x, y, shardOf)
      {
        FenceRefsHave(init, shardOf, mismatched, x);
        var i :| 0 <= i < |init| && init[i] == x.fence;
        assert Precedes(FenceKey(fs[i]).Text(), FenceKey(fs[|init|]).Text());
      }
      Concatenated(FenceRefs(init, shardOf, mismatched), more, shardOf);
    }
  }

  /** Everything on offer comes in paging order. */
  lemma OfferInOrder(s: Store, shardOf: ShardIndex, shards: nat, mismatched: set<int>)
    requires StoreOk(s) && Bounded(shardOf, shards)
    ensures InPagingOrder(AllRefs(s, Orders(s, shardOf, shards), FenceList(s), shardOf, mismatched), shardOf)
  {
    var orders, fences := Orders(s, shardOf, shards), FenceList(s);
    KeysAreValid(s);
    FencesInOrder(s);
    ShardsPaged(s, shardOf, orders, mismatched, |orders|);
    FencesPaged(fences, shardOf, mismatched);
    forall x, y | x in RefsBelow(s, orders, mismatched, |orders|) && y in FenceRefs(fences, shardOf, mismatched)
      ensures PagedBefore(x, y, shardOf)
    {
      RefsBelowHave(s, orders, mismatched, |orders|, x);
      FenceRefsHave(fences, shardOf, mismatched, y);
    }
    Concatenated(RefsBelow(s, orders, mismatched, |orders|), FenceRefs(fences, shardOf, mismatched), shardOf);
  }

  // ---- Building a page ---------------------------------------------------

  /** The requester's hash per shard; the last digest of a shard counts. */
  function RemoteHashes(digests: seq<ShardDigest>): map<int, string> {
    if digests == [] then map[]
    else
      var last := digests[|digests| - 1];
      RemoteHashes(digests[..|digests| - 1])[last.shard := last.sha]
  }

  predicate SameHash(remote: map<int, string>, shard: int, sha: string) { shard in remote && remote[shard] == sha }

  ghost function Mismatched(server: Registry, digests: seq<ShardDigest>): set<int>
    requires server.Valid()
    reads server
  {
    set i | 0 <= i < server.shards &&
      !SameHash(RemoteHashes(digests), i, server.digestHash(DigestList(server.Contents(), server.shardOf, i)))
  }

  ghost function Offered(server: Registry, digests: seq<ShardDigest>): seq<Ref>
    requires server.Valid()
    reads server
  {
    var s := server.Contents();
    AllRefs(s, Orders(s, server.shardOf, server.shards), FenceList(s), server.shardOf, Mismatched(server, digests))
  }

  /** `refs` is everything on offer. The definition opens only where the remote
      hashes are at hand. */
  ghost predicate IsOffer(server: Registry, digests: seq<ShardDigest>, refs: seq<Ref>)
    requires server.Valid()
    reads server
  {
    forall d {:trigger RemoteHashes(d)} :: d == digests ==> refs == Offered(server, d)
  }

  lemma OfferIs(server: Registry, digests: seq<ShardDigest>, refs: seq<Ref>)
    requires server.Valid() && IsOffer(server, digests, refs)
    ensures refs == Offered(server, digests)
  {
    var remote := RemoteHashes(digests);
  }

  /** The last digest the request gives for the shard has this hash. */
  ghost predicate LastSays(digests: seq<ShardDigest>, shard: int, sha: string) {
    exists j :: 0 <= j < |digests| && digests[j].shard == shard && digests[j].sha == sha
      && forall l :: j < l < |digests| ==> digests[l].shard != shard
  }

  lemma {:induction false} LastHashCounts(digests: seq<ShardDigest>, shard: int, sha: string)
    ensures SameHash(RemoteHashes(digests), shard, sha) <==> LastSays(digests, shard, sha)
  {
    if digests != [] {
      var init, last := digests[..|digests| - 1], digests[|digests| - 1];
      LastHashCounts(init, shard, sha);
      assert digests[|init|] == last && forall j :: 0 <= j < |init| ==> digests[j] == init[j];
      if LastSays(init, shard, sha) && last.shard != shard {
        var j :| 0 <= j < |init| && init[j].shard == shard && init[j].sha == sha
                 && forall l :: j < l < |init| ==> init[l].shard != shard;
        assert digests[j].shard == shard;
      }
      if LastSays(digests, shard, sha) && last.shard != shard {
        var j :| 0 <= j < |digests| && digests[j].shard == shard && digests[j].sha == sha
                 && forall l :: j < l < |digests| ==> digests[l].shard != shard;
        assert init[j].shard == shard;
      }
    }
  }

  /** What is on offer, in hashes and digest lists: everything held of a shard, unless the
      last digest the request gives for that shard is the server's own. */
  lemma OfferedExactly(server: Registry, digests: seq<ShardDigest>, refs: seq<Ref>, ref: Ref)
    requires server.Valid() && IsOffer(server, digests, refs)
    ensures var s, shard := server.Contents(), server.shardOf(ref.RefKey().service);
            ref in refs <==> Held(s, ref)
                             && !LastSays(digests, shard, server.digestHash(DigestList(s, server.shardOf, shard)))
  {
    var s, shard := server.Contents(), server.shardOf(ref.RefKey().service);
    OfferIs(server, digests, refs);
    AllRefsAre(s, server.shardOf, server.shards, Mismatched(server, digests), ref);
    LastHashCounts(digests, shard, server.digestHash(DigestList(s, server.shardOf, shard)));
  }

  lemma EqualViewsMatch(client: Registry, server: Registry, digests: seq<ShardDigest>, shard: nat)
    requires client.Valid() && server.Valid() && client.shards == server.shards
             && client.digestHash == server.digestHash
    requires |digests| == client.shards && forall i :: 0 <= i < client.shards ==> digests[i] == client.DigestAt(i)
    requires shard < server.shards
    requires View(client.Contents(), client.shardOf, shard) == View(server.Contents(), server.shardOf, shard)
    ensures LastSays(digests, shard, server.digestHash(DigestList(server.Contents(), server.shardOf, shard)))
  {
    DigestIsCanonical(client.Contents(), server.Contents(), client.shardOf, server.shardOf, shard);
    assert digests[shard] == client.DigestAt(shard) && digests[shard].shard == shard;
    forall l | shard < l < |digests|
      ensures digests[l].shard != shard
    {
      assert digests[l] == client.DigestAt(l);
    }
  }

  /** A registry that shows the server the same views is offered nothing. */
  lemma EqualViewsAreOfferedNothing(client: Registry, server: Registry, digests: seq<ShardDigest>, refs: seq<Ref>)
    requires client.Valid() && server.Valid() && client.shards == server.shards
             && client.digestHash == server.digestHash
    requires |digests| == client.shards && forall i :: 0 <= i < client.shards ==> digests[i] == client.DigestAt(i)
    requires forall i :: 0 <= i < server.shards ==>
               View(client.Contents(), client.shardOf, i) == View(server.Contents(), server.shardOf, i)
    requires IsOffer(server, digests, refs)
    ensures refs == []
  {
    if refs != [] {
      EqualViewsMatch(client, server, digests, server.shardOf(refs[0].RefKey().service));
      OfferedExactly(server, digests, refs, refs[0]);
    }
  }

  // What the loops compute, without the registry around it.

  function MutationItems(ms: seq<Mutation>): seq<SyncItem> {
    if ms == [] then [] else MutationItems(ms[..|ms| - 1]) + [MutationItem(ms[|ms| - 1])]
  }

  function SelectFences(fs: seq<Fence>, shardOf: ShardIndex, mismatched: set<int>): seq<SyncItem> {
    if fs == [] then []
    else SelectFences(fs[..|fs| - 1], shardOf, mismatched)
         + if ShardOf(shardOf, fs[|fs| - 1].key) in mismatched then [FenceItem(fs[|fs| - 1])] else []
  }

  lemma {:induction false} ExportItems(s: Store, keys: seq<Key>, now: Time)
    requires forall k :: k in keys ==> k in s.entries
    ensures MutationItems(Map(Exports(s, now), keys)) == Items(EntryRefs(s, keys), now)
  {
    if keys != [] {
      var init, last := keys[..|keys| - 1], keys[|keys| - 1];
      assert keys == init + [last];
      ExportItems(s, init, now);
      MapAppend(Exports(s, now), init, last);
      assert Map(Exports(s, now), keys)[..|keys| - 1] == Map(Exports(s, now), init);
      assert EntryRefs(s, keys)[..|EntryRefs(s, keys)| - 1] == EntryRefs(s, init);
    }
  }

  lemma {:induction false} FenceItemsAre(fs: seq<Fence>, shardOf: ShardIndex, mismatched: set<int>, now: Time)
    ensures SelectFences(fs, shardOf, mismatched) == Items(FenceRefs(fs, shardOf, mismatched), now)
  {
    if fs != [] {
      var init, refs := fs[..|fs| - 1], FenceRefs(fs, shardOf, mismatched);
      FenceItemsAre(init, shardOf, mismatched, now);
      if ShardOf(shardOf, fs[|fs| - 1].key) in mismatched {
        assert refs[..|refs| - 1] == FenceRefs(init, shardOf, mismatched);
      } else {
        assert refs == FenceRefs(init, shardOf, mismatched);
      }
    }
  }

  ghost function Upto(all: set<int>, i: int): set<int> { set j | j in all && j < i }

  lemma UptoNext(all: set<int>, i: int)
    ensures Upto(all, i + 1) == Upto(all, i) + if i in all then {i} else {}
  {}

  lemma UptoAll(all: set<int>, count: int)
    requires forall j :: j in all ==> 0 <= j < count
    ensures Upto(all, count) == all && Upto(all, 0) == {}
  {}

  /** What one shard contributes: nothing when the requester's hash matches. */
  method ShardItems(server: Registry, digests: seq<ShardDigest>, remote: map<int, string>, local: ShardDigest, i: nat,
                    now: Time,
                    ghost orders: seq<seq<Key>>)
      returns (mismatch: bool, items: seq<SyncItem>)
    requires server.Valid() && i < server.shards && local.shard == i && remote == RemoteHashes(digests)
    requires local.sha == server.digestHash(DigestList(server.Contents(), server.shardOf, i))
    requires orders == Orders(server.Contents(), server.shardOf, server.shards)
    ensures mismatch <==> i in Mismatched(server, digests)
    ensures items == Items(if mismatch then EntryRefs(server.Contents(), orders[i]) else [], now)
  {
    mismatch := !SameHash(remote, local.shard, local.sha);
    items := [];
    if mismatch {
      var mutations := server.MutationsForShard(i, now);
      items := MutationItems(mutations.value);
      KeysAreValid(server.Contents());
      ExportItems(server.Contents(), orders[i], now);
    }
  }

  /** The mismatched shards' mutations, shard by shard; then their fences. */
  method CollectItems(server: Registry, digests: seq<ShardDigest>, local: seq<ShardDigest>, now: Time,
                      ghost refs: seq<Ref>)
    returns (items: seq<SyncItem>)
    requires server.Valid() && IsOffer(server, digests, refs)
    requires |local| == server.shards && forall i :: 0 <= i < server.shards ==> local[i] == server.DigestAt(i)
    ensures items == Items(refs, now)
  {
    OfferIs(server, digests, refs);
    ghost var s, all := server.Contents(), Mismatched(server, digests);
    ghost var orders := Orders(s, server.shardOf, server.shards);
    UptoAll(all, server.shards);
    var remote := RemoteHashes(digests);
    var mismatched: set<int> := {};
    items := [];
    for i := 0 to server.shards
      invariant mismatched == Upto(all, i)
      invariant items == Items(RefsBelow(s, orders, all, i), now)
    {
      UptoNext(all, i);
      var mismatch, more := ShardItems(server, digests, remote, local[i], i, now, orders);
      ItemsAppend(RefsBelow(s, orders, all, i), if mismatch then EntryRefs(s, orders[i]) else [], now);
      mismatched := mismatched + if mismatch then {i} else {};
      items := items + more;
    }
    var fences := server.Fences();
    items := items + SelectFences(fences, server.shardOf, mismatched);
    FenceItemsAre(fences, server.shardOf, all, now);
    ItemsAppend(RefsBelow(s, orders, all, server.shards), FenceRefs(fences, server.shardOf, all), now);
  }

  function Min(a: int, b: int): int { if a < b then a else b }

  function PageEnd(cursor: nat, count: nat): nat { Min(Min(cursor, count) + PAGE_SIZE, count) }

  function MutationsIn(items: seq<SyncItem>): seq<Mutation> {
    if items == [] then []
    else MutationsIn(items[..|items| - 1]) + if items[|items| - 1].MutationItem? then [items[|items| - 1].m] else []
  }

  function FencesIn(items: seq<SyncItem>): seq<Fence> {
    if items == [] then []
    else FencesIn(items[..|items| - 1]) + if items[|items| - 1].FenceItem? then [items[|items| - 1].f] else []
  }

  lemma {:induction false} PartsAddUp(items: seq<SyncItem>)
    ensures |MutationsIn(items)| + |FencesIn(items)| == |items|
  {
    if items != [] {
      PartsAddUp(items[..|items| - 1]);
    }
  }

  /** Splits a slice of items into the response's two lists. */
  method SplitPage(page: seq<SyncItem>) returns (mutations: seq<Mutation>, fences: seq<Fence>)
    ensures mutations == MutationsIn(page) && fences == FencesIn(page)
  {
    mutations, fences := [], [];
    for i := 0 to |page|
      invariant mutations == MutationsIn(page[..i]) && fences == FencesIn(page[..i])
    {
      assert page[..i + 1][..i] == page[..i];
      match page[i]
      case MutationItem(m) => mutations := mutations + [m];
      case FenceItem(f) => fences := fences + [f];
    }
    assert page[..|page|] == page;
  }

  /** One page of what is offered, and a cursor when there is more. */
  method BuildResponse(server: Registry, request: PullRequest, now: Time, ghost refs: seq<Ref>) returns (r: Response)
    requires server.Valid() && IsOffer(server, request.digests, refs)
    ensures var start, end := Min(request.cursor, |refs|), PageEnd(request.cursor, |refs|);
            && r.mutations == MutationsIn(Items(refs[start..end], now))
            && r.fences == FencesIn(Items(refs[start..end], now))
            && r.nextCursor == if end < |refs| then Some(end) else None
    ensures |r.digests| == server.shards && forall i :: 0 <= i < server.shards ==> r.digests[i] == server.DigestAt(i)
    ensures |r.mutations| + |r.fences| == if |refs| <= request.cursor then 0 else Min(|refs| - request.cursor, 200)
    ensures r.nextCursor == if request.cursor + 200 < |refs| then Some(request.cursor + 200) else None
  {
    var local := server.Digests();
    var items := CollectItems(server, request.digests, local, now, refs);
    ItemsAt(refs, now);
    var start, end := Min(request.cursor, |items|), PageEnd(request.cursor, |items|);
    ItemsSlice(refs, now, start, end);
    var mutations, fences := SplitPage(items[start..end]);
    PartsAddUp(items[start..end]);
    r := Response(mutations, fences, local, if end < |items| then Some(end) else None);
  }

  lemma ItemsSlice(refs: seq<Ref>, now: Time, a: nat, b: nat)
    requires a <= b <= |refs| && |Items(refs, now)| == |refs|
    ensures Items(refs, now)[a..b] == Items(refs[a..b], now)
  {
    ItemsAt(refs, now);
    ItemsAt(refs[a..b], now);
  }

  ghost predicate FencesLast(refs: seq<Ref>) {
    forall i, j :: 0 <= i <= j < |refs| && refs[i].FenceRef? ==> refs[j].FenceRef?
  }

  function EntriesAmong(refs: seq<Ref>): seq<Ref> {
    if refs == [] then []
    else EntriesAmong(refs[..|refs| - 1]) + if refs[|refs| - 1].EntryRef? then [refs[|refs| - 1]] else []
  }

  function FencesAmong(refs: seq<Ref>): seq<Ref> {
    if refs == [] then []
    else FencesAmong(refs[..|refs| - 1]) + if refs[|refs| - 1].FenceRef? then [refs[|refs| - 1]] else []
  }

  /** The page's two lists are made from the refs of each kind, in order. */
  lemma {:induction false} PageParts(page: seq<Ref>, now: Time)
    ensures MutationsOf(MutationsIn(Items(page, now)), EntriesAmong(page), now)
    ensures FencesOf(FencesIn(Items(page, now)), FencesAmong(page))
  {
    if page != [] {
      var init, items := page[..|page| - 1], Items(page, now);
      PageParts(init, now);
      assert items[..|items| - 1] == Items(init, now);
    }
  }

  /** With fences last, the page is its entries and then its fences. */
  lemma {:induction false} PageOrder(page: seq<Ref>)
    requires FencesLast(page)
    ensures page == EntriesAmong(page) + FencesAmong(page)
    ensures FencesAmong(page) == [] || page[|page| - 1].FenceRef?
  {
    if page != [] {
      var init, last := page[..|page| - 1], page[|page| - 1];
      PageOrder(init);
      assert page == init + [last];
      assert FencesAmong(init) != [] ==> page[|init| - 1].FenceRef?;
    }
  }

  /** The mutations of a page and the entries they were exported from. */
  predicate MutationsOf(ms: seq<Mutation>, refs: seq<Ref>, exported: Time) {
    |ms| == |refs| && forall i :: 0 <= i < |ms| ==> refs[i].EntryRef? && ms[i] == Export(refs[i].entry, exported)
  }

  predicate FencesOf(fs: seq<Fence>, refs: seq<Ref>) {
    |fs| == |refs| && forall i :: 0 <= i < |fs| ==> refs[i] == FenceRef(fs[i])
  }

  // ---- Merging what was offered ------------------------------------------

  /** The join of what some refs claim for a key. */
  function ClaimOf(refs: seq<Ref>, key: Key): Claim {
    if refs == [] then None
    else
      var last := refs[|refs| - 1];
      Join(ClaimOf(refs[..|refs| - 1], key), if last.RefKey() == key then last.RefClaim() else None)
  }

  /** Where two registries hold entries of one epoch for a key, they name one lease. */
  predicate LeasesAgree(a: Store, b: Store) {
    forall k :: k in a.entries && k in b.entries && a.entries[k].record.leaseEpoch == b.entries[k].record.leaseEpoch
      ==> a.entries[k].record.leaseId == b.entries[k].record.leaseId
  }

  /** The same write, stored twice: all but local deadlines, delay marks and windows. */
  predicate Alike(e: Entry, f: Entry) {
    && e.record.leaseEpoch == f.record.leaseEpoch && e.record.leaseId == f.record.leaseId
    && e.record.version == f.record.version && e.record.generation == f.record.generation
    && e.record.updatedAt == f.record.updatedAt
    && e.kind == f.kind && e.eventId == f.eventId
  }

  predicate EntryFrom(e: Entry, k: Key, start: Store, server: Store) {
    || (k in start.entries && Alike(e, start.entries[k]))
    || (k in server.entries && Alike(e, server.entries[k]))
  }

  predicate FenceFrom(f: Fence, k: Key, start: Store, server: Store) {
    || (k in start.fences && f == start.fences[k])
    || (k in server.fences && f == server.fences[k])
  }

  /** Everything the puller holds it had, or the server has. */
  predicate DrawnFrom(c: Store, start: Store, server: Store) {
    && (forall k :: k in c.entries ==> EntryFrom(c.entries[k], k, start, server))
    && (forall k :: k in c.fences ==> FenceFrom(c.fences[k], k, start, server))
  }

  /** Part-way through a pull: the puller has joined exactly what it was sent. */
  ghost predicate Pulled(start: Store, server: Store, c: Store, done: seq<Ref>) {
    && DrawnFrom(c, start, server)
    && forall key {:trigger ClaimOf(done, key)} ::
          AuthorityOf(c, key) == Join(AuthorityOf(start, key), ClaimOf(done, key))
  }

  predicate Exportable(s: Store) {
    forall k :: k in s.entries ==> !s.entries[k].kind.Delayed? && s.entries[k].record.Stamped()
  }

  /** What the puller receives for an entry: valid, of the entry's rank and lease,
      and without an operation id. */
  lemma ReceivedExport(e: Entry, key: Key, exported: Time)
    requires EntryOk(e) && e.record.RecordKey() == key && !e.kind.Delayed? && e.record.Stamped()
    ensures var m := OverWire(Export(e, exported));
            && m.Valid() && MutationRank(m) == EntryRank(e) && m.record.RecordKey() == key && m.operationId == ""
            && m.record.leaseEpoch == e.record.leaseEpoch && m.record.leaseId == e.record.leaseId
            && m.record.version == e.record.version
  {
    ExportKeepsAuthority(e, exported);
  }

  lemma ExportMerges(encode: Encoding, start: Store, server: Store, c: Store, key: Key, exported: Time, now: Time)
    requires StoreOk(server) && StoreOk(c) && key in server.entries && Exportable(server)
    requires LeasesAgree(start, server) && DrawnFrom(c, start, server)
    ensures var m := OverWire(Export(server.entries[key], exported));
            CellClaim(ApplyMutation(encode, CellAt(c, key), m, now).0)
            == Join(AuthorityOf(c, key), Some(EntryRank(server.entries[key])))
  {
    assert CellOk(CellAt(server, key), key) && CellOk(CellAt(c, key), key);
    ReceivedExport(server.entries[key], key, exported);
    var m := OverWire(Export(server.entries[key], exported));
    ApplyMutationJoins(encode, CellAt(c, key), key, m, now);
    assert !Refused(CellAt(c, key), m);
  }

  /** A received export brings in the server's own entry and, if evicted, its fence. */
  lemma ExportIsDrawn(encode: Encoding, c: Store, start: Store, server: Store, key: Key, exported: Time, now: Time)
    requires StoreOk(server) && DrawnFrom(c, start, server) && key in server.entries
    ensures DrawnFrom(Step(encode, c, Deliver(OverWire(Export(server.entries[key], exported)), now)), start, server)
  {
    assert CellOk(CellAt(server, key), key);
    var m := OverWire(Export(server.entries[key], exported));
    var after := Step(encode, c, Deliver(m, now));
    forall k
      ensures k in after.entries ==> EntryFrom(after.entries[k], k, start, server)
      ensures k in after.fences ==> FenceFrom(after.fences[k], k, start, server)
    {
      DeliveryRecords(encode, c, m, now, k);
    }
  }

  lemma FenceIsDrawn(encode: Encoding, c: Store, start: Store, server: Store, f: Fence)
    requires Held(server, FenceRef(f)) && DrawnFrom(c, start, server)
    ensures DrawnFrom(Step(encode, c, DeliverFence(f)), start, server)
  {
    var after := Step(encode, c, DeliverFence(f));
    forall k
      ensures k in after.entries ==> EntryFrom(after.entries[k], k, start, server)
      ensures k in after.fences ==> FenceFrom(after.fences[k], k, start, server)
    {
      FenceRecords(encode, c, f, k);
    }
  }

  lemma FenceMerges(encode: Encoding, start: Store, server: Store, c: Store, f: Fence)
    requires StoreOk(c) && f.Valid() && Held(server, FenceRef(f)) && DrawnFrom(c, start, server)
    ensures var after := Step(encode, c, DeliverFence(f));
            DrawnFrom(after, start, server) && AuthorityOf(after, f.key)
                == Join(AuthorityOf(c, f.key), Some(FenceRank(f)))
  {
    assert CellOk(CellAt(c, f.key), f.key);
    FenceIsDrawn(encode, c, start, server, f);
    FenceAcceptedIffItOutranks(CellAt(c, f.key), f.key, f);
    StepIsPerKey(encode, c, DeliverFence(f), f.key);
  }

  lemma MergedElsewhere(encode: Encoding, c: Store, op: Op, key: Key)
    requires (op.Deliver? && op.m.record.RecordKey() == key) || (op.DeliverFence? && op.f.key == key)
    ensures CellAt(Step(encode, c, op), key) == StepCell(encode, CellAt(c, key), key, op)
    ensures forall k :: k != key ==> CellAt(Step(encode, c, op), k) == CellAt(c, k)
  {
    forall k { StepIsPerKey(encode, c, op, k); }
  }

  /** One more item delivered is one more ref joined. */
  lemma PulledOneMore(start: Store, server: Store, c: Store, after: Store, done: seq<Ref>, ref: Ref)
    requires Pulled(start, server, c, done) && DrawnFrom(after, start, server)
    requires AuthorityOf(after, ref.RefKey()) == Join(AuthorityOf(c, ref.RefKey()), ref.RefClaim())
    requires forall k :: k != ref.RefKey() ==> CellAt(after, k) == CellAt(c, k)
    ensures Pulled(start, server, after, done + [ref])
  {
    assert (done + [ref])[..|done|] == done;
    forall key
      ensures AuthorityOf(after, key) == Join(AuthorityOf(start, key), ClaimOf(done + [ref], key))
    {
      var more := if ref.RefKey() == key then ref.RefClaim() else None;
      JoinAssociative(AuthorityOf(start, key), ClaimOf(done, key), more);
      assert AuthorityOf(c, key) == Join(AuthorityOf(start, key), ClaimOf(done, key));
    }
  }

  // ---- All of it ---------------------------------------------------------

  lemma {:induction false} ClaimIsMaximum(refs: seq<Ref>, key: Key)
    ensures forall i :: 0 <= i < |refs| && refs[i].RefKey() == key ==> Below(refs[i].RefClaim(), ClaimOf(refs, key))
    ensures ClaimOf(refs, key).Some? ==>
              exists i :: 0 <= i < |refs| && refs[i].RefKey() == key && refs[i].RefClaim() == ClaimOf(refs, key)
  {
    if refs != [] {
      var init, last := refs[..|refs| - 1], refs[|refs| - 1];
      ClaimIsMaximum(init, key);
      var before, added := ClaimOf(init, key), if last.RefKey() == key then last.RefClaim() else None;
      JoinIsLeastUpperBound(before, added);
      forall i | 0 <= i < |init| && refs[i].RefKey() == key
        ensures Below(refs[i].RefClaim(), ClaimOf(refs, key))
      {
        BelowTransitive(init[i].RefClaim(), before, ClaimOf(refs, key));
      }
      if ClaimOf(refs, key).Some? && ClaimOf(refs, key) == before {
        var i :| 0 <= i < |init| && init[i].RefKey() == key && init[i].RefClaim() == before;
        assert refs[i].RefClaim() == ClaimOf(refs, key);
      }
    }
  }

  /** Everything offered for a key of a mismatched shard claims the server's own
      authority for it; for other shards nothing is claimed. */
  lemma OfferedClaims(s: Store, refs: seq<Ref>, shardOf: ShardIndex, mismatched: set<int>, key: Key)
    requires StoreOk(s)
    requires forall ref :: ref in refs <==> Held(s, ref) && ShardOf(shardOf, ref.RefKey()) in mismatched
    ensures ClaimOf(refs, key) == if ShardOf(shardOf, key) in mismatched then AuthorityOf(s, key) else None
  {
    var claim := ClaimOf(refs, key);
    ClaimIsMaximum(refs, key);
    KeysAreValid(s);
    if claim.Some? {
      var i :| 0 <= i < |refs| && refs[i].RefKey() == key && refs[i].RefClaim() == claim;
      assert refs[i] in refs;
      HeldIsBelow(s, refs[i]);
    }
    if ShardOf(shardOf, key) in mismatched && AuthorityOf(s, key).Some? {
      var own := if key in s.entries then EntryRef(key, s.entries[key]) else FenceRef(s.fences[key]);
      HeldIsBelow(s, own);
      assert own in refs;
      var i :| 0 <= i < |refs| && refs[i] == own;
      BelowAntisymmetric(AuthorityOf(s, key), claim);
    }
  }

  /** Nothing held for a key claims more than its authority. */
  lemma HeldIsBelow(s: Store, ref: Ref)
    requires StoreOk(s) && Held(s, ref)
    ensures Below(ref.RefClaim(), AuthorityOf(s, ref.RefKey()))
  {
    assert CellOk(CellAt(s, ref.RefKey()), ref.RefKey());
  }

  // ---- The pull ----------------------------------------------------------

  /** The server's records are within the puller's clock bound at every reading. */
  ghost predicate WithinSkew(skewMillis: nat, server: Store, readings: nat -> Reading) {
    forall k, i :: k in server.entries ==> !TooFarAhead(skewMillis, readings(i).wall, server.entries[k].record.version)
  }

  ghost predicate AlwaysWithinSkew(skewMillis: nat, server: Store, readings: (nat, nat) -> Reading) {
    forall k, round, i :: k in server.entries ==>
      !TooFarAhead(skewMillis, readings(round, i).wall, server.entries[k].record.version)
  }

  ghost predicate CollisionFree(digestHash: DigestHash) {
    forall a, b :: digestHash(a) == digestHash(b) ==> a == b
  }

  ghost predicate AllHeld(s: Store, refs: seq<Ref>) { forall i :: 0 <= i < |refs| ==> Held(s, refs[i]) }

  /** What a pull needs of the server and of the leases on both sides. */
  ghost predicate Pullable(start: Store, server: Store) {
    StoreOk(server) && Exportable(server) && LeasesAgree(start, server)
  }

  /** No record's version is the clock's very last. */
  predicate Unsaturated(s: Store) { forall k :: k in s.entries ==> !Saturated(s.entries[k].record.version) }

  method ReceiveMutation(client: Service, m: Mutation, r: Reading,
                         ghost start: Store, ghost server: Store, ghost done: seq<Ref>, ghost ref: Ref,
                             ghost exported: Time)
    requires client.Valid() && Pullable(start, server) && Pulled(start, server, client.Contents(), done)
    requires ref.EntryRef? && Held(server, ref) && m == Export(ref.entry, exported)
    requires !TooFarAhead(client.clock.skewMillis, r.wall, ref.entry.record.version)
    modifies client.registry, client.clock, client.wheel.slots
    ensures client.Valid() && Pulled(start, server, client.Contents(), done + [ref])
    ensures old(client.LeasesScheduled()) ==> client.LeasesScheduled()
    ensures !Saturated(ref.entry.record.version) && old(client.Covered()) ==> client.Covered()
  {
    ghost var c, encode := client.Contents(), client.registry.encode;
    assert CellOk(CellAt(server, ref.key), ref.key);
    ReceivedExport(ref.entry, ref.key, exported);
    ExportMerges(encode, start, server, c, ref.key, exported, r.registry);
    ExportIsDrawn(encode, c, start, server, ref.key, exported, r.registry);
    var outcome := client.ApplyRemote(OverWire(m), r);
    MergedElsewhere(encode, c, Deliver(OverWire(m), r.registry), ref.key);
    PulledOneMore(start, server, c, client.Contents(), done, ref);
  }

  method ReceiveFence(client: Service, f: Fence, ghost start: Store, ghost server: Store, ghost done: seq<Ref>)
    requires client.Valid() && Pulled(start, server, client.Contents(), done)
    requires StoreOk(server) && Held(server, FenceRef(f))
    modifies client.registry
    ensures client.Valid() && Pulled(start, server, client.Contents(), done + [FenceRef(f)])
    ensures old(client.LeasesScheduled()) ==> client.LeasesScheduled()
    ensures old(client.Covered()) ==> client.Covered()
  {
    ghost var c, encode := client.Contents(), client.registry.encode;
    assert CellOk(CellAt(server, f.key), f.key);
    FenceMerges(encode, start, server, c, f);
    var accepted := client.ReceiveFence(f);
    MergedElsewhere(encode, c, DeliverFence(f), f.key);
    PulledOneMore(start, server, c, client.Contents(), done, FenceRef(f));
  }

  lemma OneRefMore(done: seq<Ref>, refs: seq<Ref>, i: nat)
    requires i < |refs|
    ensures done + refs[..i + 1] == done + refs[..i] + [refs[i]]
  {}

  /** A page's mutations, merged one by one through the service. */
  method ApplyMutations(client: Service, ms: seq<Mutation>, readings: nat -> Reading,
                        ghost start: Store, ghost server: Store, ghost done: seq<Ref>, ghost refs: seq<Ref>,
                            ghost exported: Time)
    requires client.Valid() && Pullable(start, server) && Pulled(start, server, client.Contents(), done)
    requires AllHeld(server, refs) && MutationsOf(ms, refs, exported)
             && WithinSkew(client.clock.skewMillis, server, readings)
    modifies client.registry, client.clock, client.wheel.slots
    ensures client.Valid() && Pulled(start, server, client.Contents(), done + refs)
    ensures old(client.LeasesScheduled()) ==> client.LeasesScheduled()
    ensures Unsaturated(server) && old(client.Covered()) ==> client.Covered()
  {
    assert done + refs[..0] == done;
    for i := 0 to |ms|
      invariant client.Valid() && Pulled(start, server, client.Contents(), done + refs[..i])
      invariant old(client.LeasesScheduled()) ==> client.LeasesScheduled()
      invariant Unsaturated(server) && old(client.Covered()) ==> client.Covered()
    {
      assert Held(server, refs[i]);
      OneRefMore(done, refs, i);
      ReceiveMutation(client, ms[i], readings(i), start, server, done + refs[..i], refs[i], exported);
    }
    assert refs[..|ms|] == refs;
  }

  method ApplyFences(client: Service, fs: seq<Fence>, ghost start: Store, ghost server: Store, ghost done: seq<Ref>,
                     ghost refs: seq<Ref>)
    requires client.Valid() && StoreOk(server) && Pulled(start, server, client.Contents(), done)
    requires AllHeld(server, refs) && FencesOf(fs, refs)
    modifies client.registry
    ensures client.Valid() && Pulled(start, server, client.Contents(), done + refs)
    ensures old(client.LeasesScheduled()) ==> client.LeasesScheduled()
    ensures old(client.Covered()) ==> client.Covered()
  {
    assert done + refs[..0] == done;
    for i := 0 to |fs|
      invariant client.Valid() && Pulled(start, server, client.Contents(), done + refs[..i])
      invariant old(client.LeasesScheduled()) ==> client.LeasesScheduled()
      invariant old(client.Covered()) ==> client.Covered()
    {
      assert Held(server, refs[i]);
      OneRefMore(done, refs, i);
      ReceiveFence(client, fs[i], start, server, done + refs[..i]);
    }
    assert refs[..|fs|] == refs;
  }

  lemma PartsHeld(server: Store, done: seq<Ref>, refs: seq<Ref>, first: seq<Ref>, second: seq<Ref>)
    requires AllHeld(server, refs) && refs == first + second
    ensures AllHeld(server, first) && AllHeld(server, second)
    ensures done + first + second == done + refs
  {
    assert forall i :: 0 <= i < |first| ==> first[i] == refs[i];
    assert forall i :: 0 <= i < |second| ==> second[i] == refs[|first| + i];
  }

  lemma SliceOfOffer(server: Store, refs: seq<Ref>, a: nat, b: nat)
    requires AllHeld(server, refs) && FencesLast(refs) && a <= b <= |refs|
    ensures AllHeld(server, refs[a..b]) && FencesLast(refs[a..b]) && refs[..a] + refs[a..b] == refs[..b]
  {}

  /** One page merged, mutations then fences: the next slice of the offer is joined. */
  method MergePage(client: Service, page: Response, readings: nat -> Reading,
                   ghost start: Store, ghost server: Store, ghost done: seq<Ref>, ghost refs: seq<Ref>,
                       ghost exported: Time)
    requires client.Valid() && Pullable(start, server) && Pulled(start, server, client.Contents(), done)
    requires AllHeld(server, refs) && WithinSkew(client.clock.skewMillis, server, readings)
    requires FencesLast(refs)
    requires page.mutations == MutationsIn(Items(refs, exported)) && page.fences == FencesIn(Items(refs, exported))
    modifies client.registry, client.clock, client.wheel.slots
    ensures client.Valid() && Pulled(start, server, client.Contents(), done + refs)
    ensures old(client.LeasesScheduled()) ==> client.LeasesScheduled()
    ensures Unsaturated(server) && old(client.Covered()) ==> client.Covered()
  {
    PageParts(refs, exported);
    PageOrder(refs);
    PartsHeld(server, done, refs, EntriesAmong(refs), FencesAmong(refs));
    ApplyMutations(client, page.mutations, readings, start, server, done, EntriesAmong(refs), exported);
    ApplyFences(client, page.fences, start, server, done + EntriesAmong(refs), FencesAmong(refs));
  }

  lemma {:induction false} RemoteHashesAre(digests: seq<ShardDigest>, index: int)
    requires forall i :: 0 <= i < |digests| ==> digests[i].shard == i
    ensures index in RemoteHashes(digests) <==> 0 <= index < |digests|
    ensures 0 <= index < |digests| ==> RemoteHashes(digests)[index] == digests[index].sha
  {
    if digests != [] {
      RemoteHashesAre(digests[..|digests| - 1], index);
    }
  }

  /** A summary fixes the authority. */
  lemma SameSummarySameAuthority(s: Store, t: Store, key: Key)
    requires StoreOk(s) && StoreOk(t) && Known(s, key) && Known(t, key) && SummaryAt(s, key) == SummaryAt(t, key)
    ensures AuthorityOf(s, key) == AuthorityOf(t, key)
  {
    assert CellOk(CellAt(s, key), key) && CellOk(CellAt(t, key), key);
  }

  lemma SameListSameAuthority(s: Store, t: Store, shardOf: ShardIndex, other: ShardIndex, key: Key)
    requires StoreOk(s) && StoreOk(t) && Known(s, key)
    requires DigestList(s, shardOf, ShardOf(shardOf, key)) == DigestList(t, other, ShardOf(shardOf, key))
    ensures AuthorityOf(s, key) == AuthorityOf(t, key)
  {
    var index := ShardOf(shardOf, key);
    DigestIsCanonical(s, t, shardOf, other, index);
    assert key in View(s, shardOf, index) && key in View(t, other, index);
    assert View(s, shardOf, index)[key] == View(t, other, index)[key];
    SameSummarySameAuthority(s, t, key);
  }

  /** The digests a client computed from `start`. */
  ghost predicate DigestsOf(client: Registry, start: Store, digests: seq<ShardDigest>)
    requires StoreOk(start)
  {
    && |digests| == client.shards
    && forall i :: 0 <= i < client.shards ==>
         digests[i].shard == i && digests[i].sha == client.digestHash(DigestList(start, client.shardOf, i))
  }

  /** What the whole offer adds: the server's authority, for every key. Matching
      digests mean the shard's authorities were equal to begin with. */
  lemma OfferedIsEverything(client: Registry, server: Registry, start: Store, digests: seq<ShardDigest>,
                            refs: seq<Ref>, key: Key)
    requires server.Valid() && StoreOk(start) && DigestsOf(client, start, digests) && IsOffer(server, digests, refs)
    requires client.digestHash == server.digestHash && CollisionFree(server.digestHash)
    ensures Join(AuthorityOf(start, key), ClaimOf(refs, key))
            == Join(AuthorityOf(start, key), AuthorityOf(server.Contents(), key))
  {
    OfferIs(server, digests, refs);
    var s, all := server.Contents(), Mismatched(server, digests);
    OfferClaims(s, server.shardOf, server.shards, all, key);
    if ShardOf(server.shardOf, key) !in all && Known(s, key) {
      MatchedMeansSame(client, server, start, digests, key);
    }
  }

  lemma OfferClaims(s: Store, shardOf: ShardIndex, shards: nat, mismatched: set<int>, key: Key)
    requires StoreOk(s) && Bounded(shardOf, shards)
    ensures ClaimOf(AllRefs(s, Orders(s, shardOf, shards), FenceList(s), shardOf, mismatched), key)
            == if ShardOf(shardOf, key) in mismatched then AuthorityOf(s, key) else None
  {
    forall ref { AllRefsAre(s, shardOf, shards, mismatched, ref); }
    OfferedClaims(s, AllRefs(s, Orders(s, shardOf, shards), FenceList(s), shardOf, mismatched), shardOf, mismatched,
                  key);
  }

  /** Equal hashes of a shard mean equal authorities for every key the server has in it. */
  lemma MatchedMeansSame(client: Registry, server: Registry, start: Store, digests: seq<ShardDigest>, key: Key)
    requires server.Valid() && StoreOk(start) && DigestsOf(client, start, digests)
    requires client.digestHash == server.digestHash && CollisionFree(server.digestHash)
    requires ShardOf(server.shardOf, key) !in Mismatched(server, digests) && Known(server.Contents(), key)
    ensures AuthorityOf(start, key) == AuthorityOf(server.Contents(), key)
  {
    RemoteHashesAre(digests, ShardOf(server.shardOf, key));
    SameListSameAuthority(server.Contents(), start, server.shardOf, client.shardOf, key);
  }

  /** The offer exists, holds only what the server holds, and puts fences last. */
  lemma OfferFor(server: Registry, digests: seq<ShardDigest>) returns (refs: seq<Ref>)
    requires server.Valid()
    ensures IsOffer(server, digests, refs) && AllHeld(server.Contents(), refs) && FencesLast(refs)
  {
    refs := Offered(server, digests);
    var s, all := server.Contents(), Mismatched(server, digests);
    forall i | 0 <= i < |refs|
      ensures Held(s, refs[i])
    {
      AllRefsAre(s, server.shardOf, server.shards, all, refs[i]);
    }
    forall i, j | 0 <= i <= j < |refs| && refs[i].FenceRef?
      ensures refs[j].FenceRef?
    {
      FencesComeLast(s, Orders(s, server.shardOf, server.shards), FenceList(s), server.shardOf, all, i, j);
    }
  }

  /** SyncPeer against a server that does not change: the cursor loop ends without
      error, and every authority becomes the join of both sides. */
  method SyncPeer(client: Service, server: Registry, serverNow: nat -> Time, readings: (nat, nat) -> Reading)
    returns (ok: bool)
    requires client.Valid() && server.Valid() && client.registry != server
    requires client.registry.digestHash == server.digestHash && CollisionFree(server.digestHash)
    requires Pullable(client.Contents(), server.Contents())
    requires AlwaysWithinSkew(client.clock.skewMillis, server.Contents(), readings)
    modifies client.registry, client.clock, client.wheel.slots
    ensures client.Valid() && ok
    ensures forall key :: AuthorityOf(client.Contents(), key)
                          == Join(AuthorityOf(old(client.Contents()), key), AuthorityOf(server.Contents(), key))
    ensures DrawnFrom(client.Contents(), old(client.Contents()), server.Contents())
    ensures old(client.LeasesScheduled()) ==> client.LeasesScheduled()
    ensures Unsaturated(server.Contents()) && old(client.Covered()) ==> client.Covered()
  {
    ghost var start := client.Contents();
    var initialDigests := client.registry.Digests();
    ghost var refs := OfferFor(server, initialDigests);
    ok := PullPages(client, server, initialDigests, serverNow, readings, refs);
    forall key
      ensures AuthorityOf(client.Contents(), key) == Join(AuthorityOf(start, key), AuthorityOf(server.Contents(), key))
    {
      OfferedIsEverything(client.registry, server, start, initialDigests, refs, key);
      assert AuthorityOf(client.Contents(), key) == Join(AuthorityOf(start, key), ClaimOf(refs, key));
    }
  }

  /** One request, one response, one page merged. */
  method PullPage(client: Service, server: Registry, request: PullRequest, serverNow: Time, readings: nat -> Reading,
                  ghost start: Store, ghost refs: seq<Ref>) returns (next: Option<nat>)
    requires client.Valid() && server.Valid() && client.registry != server && Pullable(start, server.Contents())
    requires WithinSkew(client.clock.skewMillis, server.Contents(), readings)
    requires IsOffer(server, request.digests, refs) && AllHeld(server.Contents(), refs) && FencesLast(refs)
    requires request.cursor <= |refs| && Pulled(start, server.Contents(), client.Contents(), refs[..request.cursor])
    modifies client.registry, client.clock, client.wheel.slots
    ensures client.Valid() && Pulled(start, server.Contents(), client.Contents(),
                                     refs[..PageEnd(request.cursor, |refs|)])
    ensures next == if PageEnd(request.cursor, |refs|) < |refs| then Some(PageEnd(request.cursor, |refs|)) else None
    ensures old(client.LeasesScheduled()) ==> client.LeasesScheduled()
    ensures Unsaturated(server.Contents()) && old(client.Covered()) ==> client.Covered()
  {
    ghost var a, b := request.cursor, PageEnd(request.cursor, |refs|);
    SliceOfOffer(server.Contents(), refs, a, b);
    var response := BuildResponse(server, request, serverNow, refs);
    MergePage(client, response, readings, start, server.Contents(), refs[..a], refs[a..b], serverNow);
    next := response.nextCursor;
  }

  /** The cursor loop: the pages concatenate to the whole offer, in order. */
  method PullPages(client: Service, server: Registry, initialDigests: seq<ShardDigest>, serverNow: nat -> Time,
                   readings: (nat, nat) -> Reading, ghost refs: seq<Ref>) returns (ok: bool)
    requires client.Valid() && server.Valid() && client.registry != server
             && Pullable(client.Contents(), server.Contents())
    requires AlwaysWithinSkew(client.clock.skewMillis, server.Contents(), readings)
    requires IsOffer(server, initialDigests, refs) && AllHeld(server.Contents(), refs) && FencesLast(refs)
    modifies client.registry, client.clock, client.wheel.slots
    ensures client.Valid() && ok
    ensures Pulled(old(client.Contents()), server.Contents(), client.Contents(), refs)
    ensures old(client.LeasesScheduled()) ==> client.LeasesScheduled()
    ensures Unsaturated(server.Contents()) && old(client.Covered()) ==> client.Covered()
  {
    NothingPulled(client.Contents(), server.Contents());
    var cursor: nat, round: nat := 0, 0;
    assert refs[..0] == [] && refs[..|refs|] == refs;
    while true
      invariant client.Valid() && cursor <= |refs|
      invariant Pulled(old(client.Contents()), server.Contents(), client.Contents(), refs[..cursor])
      invariant old(client.LeasesScheduled()) ==> client.LeasesScheduled()
      invariant Unsaturated(server.Contents()) && old(client.Covered()) ==> client.Covered()
      decreases |refs| - cursor
    {
      var next := PullPage(client, server, PullRequest(initialDigests, cursor), serverNow(round),
                           (i: nat) => readings(round, i),
                           old(client.Contents()), refs);
      if next.None? {
        return true;
      }
      if next.value <= cursor {
        return false;
      }
      cursor := next.value;
      round := round + 1;
    }
  }

  lemma NothingPulled(start: Store, server: Store)
    ensures Pulled(start, server, start, [])
  {}

  // ---- Pulls in both directions ------------------------------------------

  /** What was pulled can be pulled back. */
  lemma PulledBack(start: Store, server: Store, c: Store)
    requires Pullable(start, server) && Exportable(start) && StoreOk(c) && DrawnFrom(c, start, server)
    ensures Pullable(server, c)
    ensures Unsaturated(start) && Unsaturated(server) ==> Unsaturated(c)
  {}

  lemma SkewOfDrawn(skewMillis: nat, start: Store, server: Store, c: Store, readings: (nat, nat) -> Reading)
    requires DrawnFrom(c, start, server)
    requires AlwaysWithinSkew(skewMillis, start, readings) && AlwaysWithinSkew(skewMillis, server, readings)
    ensures AlwaysWithinSkew(skewMillis, c, readings)
  {
    forall k, round, i | k in c.entries
      ensures !TooFarAhead(skewMillis, readings(round, i).wall, c.entries[k].record.version)
    {
      assert EntryFrom(c.entries[k], k, start, server);
    }
  }

  lemma BothJoined(ca: Claim, cb: Claim)
    ensures Join(cb, Join(ca, cb)) == Join(ca, cb)
  {
    JoinIsLeastUpperBound(ca, cb);
    JoinIsLeastUpperBound(cb, Join(ca, cb));
    BelowAntisymmetric(Join(cb, Join(ca, cb)), Join(ca, cb));
  }

  /** A pull leaves the other node as it was. */
  method PullFrom(client: Service, peer: Service, serverNow: nat -> Time, readings: (nat, nat) -> Reading)
    returns (ok: bool)
    requires client.Valid() && peer.Valid() && Apart(client, peer)
    requires client.registry.digestHash == peer.registry.digestHash && CollisionFree(peer.registry.digestHash)
    requires Pullable(client.Contents(), peer.Contents())
    requires AlwaysWithinSkew(client.clock.skewMillis, peer.Contents(), readings)
    modifies client.registry, client.clock, client.wheel.slots
    ensures client.Valid() && peer.Valid() && ok && peer.Contents() == old(peer.Contents())
    ensures forall key :: AuthorityOf(client.Contents(), key)
                          == Join(AuthorityOf(old(client.Contents()), key), AuthorityOf(peer.Contents(), key))
    ensures DrawnFrom(client.Contents(), old(client.Contents()), peer.Contents())
    ensures old(client.LeasesScheduled()) ==> client.LeasesScheduled()
    ensures old(peer.LeasesScheduled()) ==> peer.LeasesScheduled()
    ensures Unsaturated(peer.Contents()) && old(client.Covered()) ==> client.Covered()
    ensures old(peer.Covered()) ==> peer.Covered()
  {
    ok := SyncPeer(client, peer.registry, serverNow, readings);
  }

  /** A pulls from B, then B pulls from A, with nothing else in between: both end with
      the join of what they had, for every key; and where every version was issued with
      one kind, event and generation, a shard's digests then match if and only if both
      sides have collected the same tombstones of it. */
  method PullBothWays(a: Service, b: Service, serverNow: nat -> Time, otherNow: nat -> Time,
                      readings: (nat, nat) -> Reading, others: (nat, nat) -> Reading, ghost issues: map<Version, Issue>)
    returns (ok: bool)
    requires a.Valid() && b.Valid() && Apart(a, b)
    requires a.registry.digestHash == b.registry.digestHash && CollisionFree(a.registry.digestHash)
    requires Pullable(a.Contents(), b.Contents()) && Exportable(a.Contents())
    requires AlwaysWithinSkew(a.clock.skewMillis, b.Contents(), readings)
    requires AlwaysWithinSkew(b.clock.skewMillis, a.Contents(), others)
             && AlwaysWithinSkew(b.clock.skewMillis, b.Contents(), others)
    modifies a.registry, a.clock, a.wheel.slots, b.registry, b.clock, b.wheel.slots
    ensures a.Valid() && b.Valid() && ok
    ensures forall key :: AuthorityOf(a.Contents(), key) == AuthorityOf(b.Contents(), key)
                          == Join(AuthorityOf(old(a.Contents()), key), AuthorityOf(old(b.Contents()), key))
    ensures old(a.LeasesScheduled()) ==> a.LeasesScheduled()
    ensures old(b.LeasesScheduled()) ==> b.LeasesScheduled()
    ensures old(Unsaturated(a.Contents()) && Unsaturated(b.Contents())) && old(a.Covered()) ==> a.Covered()
    ensures old(Unsaturated(a.Contents()) && Unsaturated(b.Contents())) && old(b.Covered()) ==> b.Covered()
    ensures old(Attested(issues, a.Contents()) && Attested(issues, b.Contents())) ==>
              forall index :: DigestsAgree(a.Contents(), b.Contents(), a.registry.shardOf, index)
                              <==> CollectedAlike(a.Contents(), b.Contents(), a.registry.shardOf, index)
  {
    ghost var ofA, ofB := a.Contents(), b.Contents();
    ok := PullFrom(a, b, serverNow, readings);
    ghost var pulled := a.Contents();
    PulledBack(ofA, ofB, pulled);
    SkewOfDrawn(b.clock.skewMillis, ofA, ofB, pulled, others);
    var back := PullFrom(b, a, otherNow, others);
    ok := ok && back;
    MetAfterPulls(ofA, ofB, pulled, b.Contents());
    if Attested(issues, ofA) && Attested(issues, ofB) {
      DigestsAfterPulls(issues, ofA, ofB, pulled, b.Contents(), a.registry.shardOf);
    }
  }

  /** What two pulls in turn leave on either side. */
  lemma MetAfterPulls(ofA: Store, ofB: Store, pulled: Store, back: Store)
    requires forall key :: AuthorityOf(pulled, key) == Join(AuthorityOf(ofA, key), AuthorityOf(ofB, key))
    requires forall key :: AuthorityOf(back, key) == Join(AuthorityOf(ofB, key), AuthorityOf(pulled, key))
    ensures forall key :: AuthorityOf(pulled, key) == AuthorityOf(back, key)
            == Join(AuthorityOf(ofA, key), AuthorityOf(ofB, key))
  {
    forall key
      ensures AuthorityOf(pulled, key) == AuthorityOf(back, key) == Join(AuthorityOf(ofA, key), AuthorityOf(ofB, key))
    {
      BothJoined(AuthorityOf(ofA, key), AuthorityOf(ofB, key));
    }
  }

  lemma DigestsAfterPulls(issues: map<Version, Issue>, ofA: Store, ofB: Store, pulled: Store, back: Store,
                          shardOf: ShardIndex)
    requires StoreOk(pulled) && StoreOk(back) && Attested(issues, ofA) && Attested(issues, ofB)
    requires DrawnFrom(pulled, ofA, ofB) && DrawnFrom(back, ofB, pulled)
    requires forall key :: AuthorityOf(pulled, key) == AuthorityOf(back, key)
    ensures forall index :: DigestsAgree(pulled, back, shardOf, index) <==> CollectedAlike(pulled, back, shardOf, index)
  {
    DrawnIsAttested(issues, pulled, ofA, ofB);
    DrawnIsAttested(issues, back, ofB, pulled);
    forall index
      ensures DigestsAgree(pulled, back, shardOf, index) <==> CollectedAlike(pulled, back, shardOf, index)
    {
      DigestsMatchWhenCollectedAlike(issues, pulled, back, shardOf, index);
    }
  }

  /** Two nodes that share nothing. */
  predicate Apart(a: Service, b: Service) {
    a.registry != b.registry && a.clock != b.clock && a.wheel != b.wheel && a.wheel.slots != b.wheel.slots
  }

  // ---- Digests after pulls -----------------------------------------------

  /** What equal authorities still leave open in a digest. */
  predicate SamePayload(s: Store, t: Store, key: Key)
    requires Known(s, key) && Known(t, key)
  {
    && (key in s.entries <==> key in t.entries)
    && SummaryAt(s, key).kind == SummaryAt(t, key).kind
    && SummaryAt(s, key).generation == SummaryAt(t, key).generation
  }

  /** Two registries say the same of a key exactly when it has the same authority,
      kind and generation on both, and its tombstone is collected on both or neither. */
  lemma SameSummaryWhen(s: Store, t: Store, key: Key)
    requires StoreOk(s) && StoreOk(t) && Known(s, key) && Known(t, key)
    ensures SummaryAt(s, key) == SummaryAt(t, key)
            <==> AuthorityOf(s, key) == AuthorityOf(t, key) && SamePayload(s, t, key)
  {
    assert CellOk(CellAt(s, key), key) && CellOk(CellAt(t, key), key);
  }

  lemma KnownAlike(s: Store, t: Store, key: Key)
    requires AuthorityOf(s, key) == AuthorityOf(t, key)
    ensures Known(s, key) <==> Known(t, key)
  {}

  /** So after mutual pulls the digests of a shard match exactly when that holds of
      every key in it. */
  lemma DigestsMatchWhen(s: Store, t: Store, shardOf: ShardIndex, index: nat)
    requires StoreOk(s) && StoreOk(t)
    requires forall key :: AuthorityOf(s, key) == AuthorityOf(t, key)
    ensures DigestList(s, shardOf, index) == DigestList(t, shardOf, index)
            <==> forall key :: key in View(s, shardOf, index) ==> Known(t, key) && SamePayload(s, t, key)
  {
    DigestIsCanonical(s, t, shardOf, shardOf, index);
    if View(s, shardOf, index) == View(t, shardOf, index) {
      forall key | key in View(s, shardOf, index)
        ensures Known(t, key) && SamePayload(s, t, key)
      {
        assert key in View(t, shardOf, index);
        SameSummaryWhen(s, t, key);
      }
    }
    if forall key :: key in View(s, shardOf, index) ==> Known(t, key) && SamePayload(s, t, key) {
      ViewsEqualWhen(s, t, shardOf, index);
    }
  }

  lemma ViewsEqualWhen(s: Store, t: Store, shardOf: ShardIndex, index: nat)
    requires StoreOk(s) && StoreOk(t)
    requires forall key :: AuthorityOf(s, key) == AuthorityOf(t, key)
    requires forall key :: key in View(s, shardOf, index) ==> Known(t, key) && SamePayload(s, t, key)
    ensures View(s, shardOf, index) == View(t, shardOf, index)
  {
    var vs, vt := View(s, shardOf, index), View(t, shardOf, index);
    forall key
      ensures key in vs ==> key in vt && vs[key] == vt[key]
      ensures key in vt ==> key in vs
    {
      assert AuthorityOf(s, key) == AuthorityOf(t, key);
      KnownAlike(s, t, key);
      if key in vs {
        SameSummaryWhen(s, t, key);
      }
    }
  }

  /** What a version was issued as. */
  datatype Issue = Issue(kind: Kind, eventId: string, generation: UInt64, leaseEpoch: Version)

  predicate AsIssued(issues: map<Version, Issue>, version: Version, issue: Issue) { version in issues
            && issues[version] == issue }

  function IssueOf(kind: Kind, eventId: string, record: Instance): Issue { Issue(kind, eventId, record.generation,
            record.leaseEpoch) }

  predicate EntryAttested(issues: map<Version, Issue>,
                          e: Entry) { AsIssued(issues, e.record.version, IssueOf(e.kind, e.eventId, e.record)) }

  predicate FenceAttested(issues: map<Version, Issue>, f: Fence) {
    AsIssued(issues, f.version, Issue(f.kind, f.eventId, f.generation, f.leaseEpoch))
  }

  /** Everything held is held as it was issued. */
  predicate Attested(issues: map<Version, Issue>, s: Store) {
    && (forall k :: k in s.entries ==> EntryAttested(issues, s.entries[k]))
    && (forall k :: k in s.fences ==> FenceAttested(issues, s.fences[k]))
  }

  lemma DrawnIsAttested(issues: map<Version, Issue>, c: Store, start: Store, server: Store)
    requires DrawnFrom(c, start, server) && Attested(issues, start) && Attested(issues, server)
    ensures Attested(issues, c)
  {
    forall k
      ensures k in c.entries ==> EntryAttested(issues, c.entries[k])
      ensures k in c.fences ==> FenceAttested(issues, c.fences[k])
    {
      assert k in c.entries ==> EntryFrom(c.entries[k], k, start, server);
      assert k in c.fences ==> FenceFrom(c.fences[k], k, start, server);
    }
  }

  /** Equal authorities name one version, and with it one kind and generation. */
  lemma AttestedAlike(issues: map<Version, Issue>, s: Store, t: Store, key: Key)
    requires Attested(issues, s) && Attested(issues, t)
    requires Known(s, key) && Known(t, key) && AuthorityOf(s, key) == AuthorityOf(t, key)
    ensures SummaryAt(s, key).kind == SummaryAt(t, key).kind
            && SummaryAt(s, key).generation == SummaryAt(t, key).generation
  {}

  ghost predicate DigestsAgree(s: Store, t: Store, shardOf: ShardIndex, index: nat) {
    StoreOk(s) && StoreOk(t) && DigestList(s, shardOf, index) == DigestList(t, shardOf, index)
  }

  /** Of every key of the shard, both hold the full entry or neither does. */
  ghost predicate CollectedAlike(s: Store, t: Store, shardOf: ShardIndex, index: nat) {
    forall key :: key in View(s, shardOf, index) ==> (key in s.entries <==> key in t.entries)
  }

  /** With equal authorities, and everything held as issued, the digest lists of a shard
      match exactly when both sides have collected the same tombstones. */
  lemma DigestsMatchWhenCollectedAlike(issues: map<Version, Issue>, s: Store, t: Store, shardOf: ShardIndex, index: nat)
    requires StoreOk(s) && StoreOk(t) && Attested(issues, s) && Attested(issues, t)
    requires forall key :: AuthorityOf(s, key) == AuthorityOf(t, key)
    ensures DigestsAgree(s, t, shardOf, index) <==> CollectedAlike(s, t, shardOf, index)
  {
    DigestsMatchWhen(s, t, shardOf, index);
    forall key | key in View(s, shardOf, index)
      ensures Known(t, key) && (SamePayload(s, t, key) <==> (key in s.entries <==> key in t.entries))
    {
      assert AuthorityOf(s, key) == AuthorityOf(t, key);
      KnownAlike(s, t, key);
      AttestedAlike(issues, s, t, key);
    }
  }
}
