/** A cluster: nodes with distinct ids, each a clock, a delivery history, and the
    operations under way on it. Every locked region is a step of its own: a local write
    reads, then draws a version, then applies, and a remote one is observed, then
    applied, with anything at all in between. */
module ClusterRun {
  import opened Ordering
  import opened Versions
  import opened Model
  import opened Authority
  import opened Cells
  import opened Convergence
  import opened Digest
  import opened Clock
  import opened Operations
  import opened AntiEntropy
  import Leases
  import Service

  /** What some operation on the node has read. */
  datatype Read = Read(key: Key, cell: Cell)

  /** `drafts` are the mutations whose version is drawn or observed and whose apply is
      still to come. */
  datatype Node = Node(last: Version, history: seq<Op>, seen: set<Read>, drafts: set<Mutation>)

  /** `leases` and `issues` record, for the proof, which lease id each epoch and which
      kind, event, generation and epoch each version was issued for; `issued` every version
      the clocks handed out. */
  datatype Cluster = Cluster(nodes: map<string, Node>, sent: set<Mutation>, posted: set<Fence>,
                             leases: map<Version, string>, issues: map<Version, Issue>, issued: seq<Version>)

  function Holds(encode: Encoding, node: Node): Store { Run(encode, EMPTY_STORE, node.history) }

  datatype Action =
    | Look(n: string, key: Key)
    | Register(n: string, request: Request, from: Cell, r: Reading)
    | Heartbeat(n: string, key: Key, from: Cell, operationId: string, r: Reading)
    | Deregister(n: string, key: Key, from: Cell, operationId: string, demo: bool, r: Reading)
    | Expire(n: string, key: Key, from: Cell, r: Reading)
    | Tock(n: string, wall: Int64)
    | Observe(n: string, m: Mutation, wall: Int64)
    | Finish(n: string, m: Mutation, now: Time)
    | Upkeep(n: string, op: Op)
    | ReceiveFence(n: string, f: Fence)
    | PostFence(n: string, key: Key)
    | Export(n: string, key: Key, now: Time)

  // ---- Steps -------------------------------------------------------------

  /** The actions that draw a version for a local write. */
  predicate Writes(a: Action) { a.Register? || a.Heartbeat? || a.Deregister? || a.Expire? }

  predicate WellRead(a: Action) { Writes(a) && !a.Register? ==> a.from.entry.Some? }

  function ReadKey(a: Action): Key
    requires Writes(a)
  {
    if a.Register? then a.request.RequestKey() else a.key
  }

  /** Entry and fence were each read, at one time or at two: a registration asks for the
      fence only when it found no entry, in a region of its own. */
  ghost predicate WasRead(seen: set<Read>, key: Key, from: Cell) {
    && (exists x :: x in seen && x.key == key && x.cell.entry == from.entry)
    && (exists x :: x in seen && x.key == key && x.cell.fence == from.fence)
  }

  /** The mutation a local write builds from what it read and the version it drew. */
  function Written(ttl: int, a: Action, version: Version): Mutation
    requires Writes(a) && WellRead(a)
  {
    match a
    case Register(n, request, from, r) => RegisterMutation(from, request, n, version, ttl, r)
    case Heartbeat(n, key, from, operationId, r) => HeartbeatMutation(from.entry.value.record, n, version, operationId,
              ttl, r)
    case Deregister(n, key, from, operationId, demo, r) => DeregisterMutation(from.entry.value.record, n, version,
              operationId, demo, r)
    case Expire(n, key, from, r) => ExpireMutation(from.entry.value.record, n, version, r)
  }

  /** Local writes use something read before, however long ago, and an unsaturated
      clock; a mutation or fence received was sent; the clock accepts what it observes. */
  ghost predicate Enabled(encode: Encoding, skewMillis: nat, c: Cluster, a: Action) {
    && a.n in c.nodes && WellRead(a)
    && (Writes(a) ==> WasRead(c.nodes[a.n].seen, ReadKey(a), a.from))
    && (Writes(a) || a.Tock? ==> !Saturated(c.nodes[a.n].last))
    && (a.Observe? ==>
          a.m in c.sent && ValidVersion(a.m.record.version) && !TooFarAhead(skewMillis, a.wall, a.m.record.version))
    && (a.Finish? ==> a.m in c.nodes[a.n].drafts)
    && (a.Upkeep? ==> a.op.Delay? || a.op.Gc?)
    && (a.ReceiveFence? ==> a.f in c.posted)
    && (a.PostFence? ==> a.key in Holds(encode, c.nodes[a.n]).fences)
    && (a.Export? ==> a.key in Holds(encode, c.nodes[a.n]).entries)
  }

  /** The registry operation an action performs, if any. */
  function OpOf(a: Action): Option<Op> {
    match a
    case Finish(n, m, now) => Some(Deliver(m, now))
    case Upkeep(n, op) => Some(op)
    case ReceiveFence(n, f) => Some(DeliverFence(f))
    case _ => None
  }

  function Performed(node: Node, op: Op): Node {
    node.(history := node.history + [op], drafts := if op.Deliver? then node.drafts - {op.m} else node.drafts)
  }

  /** What a locked region does to its node. */
  function Moved(encode: Encoding, ttl: int, node: Node, a: Action): Node
    requires WellRead(a)
  {
    if OpOf(a).Some? then Performed(node, OpOf(a).value)
    else match a
      case Look(n, key) => node.(seen := node.seen + {Read(key, CellAt(Holds(encode, node), key))})
      case Tock(n, wall) => node.(last := NowAfter(n, node.last, wall))
      case Observe(n, m, wall) => node.(last := ObserveAfter(n, node.last, wall, m.record.version),
                                        drafts := node.drafts + {m})
      case PostFence(_, _) => node
      case Export(_, _, _) => node
      case _ =>
        if Writes(a) then
          var version := NowAfter(a.n, node.last, a.r.wall);
          node.(last := version, drafts := node.drafts + {Written(ttl, a, version)})
        else node
  }

  function Applies(encode: Encoding, node: Node, m: Mutation, now: Time): bool {
    ApplyMutation(encode, CellAt(Holds(encode, node), m.record.RecordKey()), m, now).1.Applied?
  }

  /** The version an action draws from its node's clock. */
  predicate Draws(a: Action) { Writes(a) || a.Tock? }

  function Wall(a: Action): Int64
    requires Draws(a)
  {
    if a.Tock? then a.wall else a.r.wall
  }

  function Drawn(last: Version, a: Action): Version
    requires Draws(a)
  {
    NowAfter(a.n, last, Wall(a))
  }

  /** What was applied goes out to peers, through JSON; so does what is exported. */
  function SentBy(encode: Encoding, node: Node, a: Action): set<Mutation>
    requires a.Export? ==> a.key in Holds(encode, node).entries
  {
    if a.Finish? && Applies(encode, node, a.m, a.now) then {OverWire(a.m)}
    else if a.Export? then {OverWire(Digest.Export(Holds(encode, node).entries[a.key], a.now))}
    else {}
  }

  function PostedBy(encode: Encoding, node: Node, a: Action): set<Fence>
    requires a.PostFence? ==> a.key in Holds(encode, node).fences
  {
    if a.PostFence? then {Holds(encode, node).fences[a.key]} else {}
  }

  function LeasesAfter(leases: map<Version, string>, last: Version, a: Action): map<Version, string> {
    if a.Register? then leases[Drawn(last, a) := a.r.leaseId] else leases
  }

  function IssuesAfter(ttl: int, issues: map<Version, Issue>, last: Version, a: Action): map<Version, Issue>
    requires WellRead(a)
  {
    if Writes(a) then
      var m := Written(ttl, a, Drawn(last, a));
      issues[Drawn(last, a) := IssueOf(m.kind, m.eventId, m.record)]
    else issues
  }

  function Act(encode: Encoding, ttl: int, c: Cluster, a: Action): Cluster
    requires a.n in c.nodes && WellRead(a)
    requires a.PostFence? ==> a.key in Holds(encode, c.nodes[a.n]).fences
    requires a.Export? ==> a.key in Holds(encode, c.nodes[a.n]).entries
  {
    var node := c.nodes[a.n];
    Cluster(c.nodes[a.n := Moved(encode, ttl, node, a)],
            c.sent + SentBy(encode, node, a), c.posted + PostedBy(encode, node, a),
            LeasesAfter(c.leases, node.last, a), IssuesAfter(ttl, c.issues, node.last, a),
            if Draws(a) then c.issued + [Drawn(node.last, a)] else c.issued)
  }

  // ---- What every run keeps ----------------------------------------------

  /** A record of a known epoch under that epoch's lease, no older than its epoch. */
  predicate Leased(leases: map<Version, string>, record: Instance) {
    && record.leaseEpoch in leases && leases[record.leaseEpoch] == record.leaseId
    && AtMost(record.leaseEpoch, record.version)
  }

  predicate Seen(last: Version, version: Version) { AtMost(version, last) || Saturated(last) }

  predicate RecordOk(leases: map<Version, string>, last: Version, record: Instance) {
    Leased(leases, record) && Seen(last, record.version)
  }

  ghost predicate StoredOk(leases: map<Version, string>, last: Version, s: Store) {
    forall k :: k in s.entries ==> RecordOk(leases, last, s.entries[k].record)
  }

  ghost predicate ReadsOk(leases: map<Version, string>, last: Version, seen: set<Read>) {
    forall x :: x in seen && x.cell.entry.Some? ==> RecordOk(leases, last, x.cell.entry.value.record)
  }

  ghost predicate DraftsOk(leases: map<Version, string>, last: Version, drafts: set<Mutation>) {
    forall m :: m in drafts ==> RecordOk(leases, last, m.record)
  }

  ghost predicate FactsOk(leases: map<Version, string>, last: Version, facts: set<Fact>) {
    forall m :: MutationFact(m) in facts ==> RecordOk(leases, last, m.record)
  }

  ghost predicate NodeOk(encode: Encoding, leases: map<Version, string>, n: string, node: Node) {
    && Own(n, node.last)
    && StoredOk(leases, node.last, Holds(encode, node)) && FactsOk(leases, node.last, Facts(node.history))
    && ReadsOk(leases, node.last, node.seen) && DraftsOk(leases, node.last, node.drafts)
  }

  /** Every issued version is its issuer's, issued once, and no later than the issuer's
      clock; leases and issues are recorded under issued versions. */
  ghost predicate IssuedOk(c: Cluster) {
    && (forall i :: 0 <= i < |c.issued| ==>
          c.issued[i].origin in c.nodes && AtMost(c.issued[i], c.nodes[c.issued[i].origin].last))
    && (forall i, j :: 0 <= i < j < |c.issued| ==> c.issued[i] != c.issued[j])
    && (forall e :: e in c.leases ==> e in c.issued) && (forall v :: v in c.issues ==> v in c.issued)
  }

  ghost predicate ClusterOk(encode: Encoding, c: Cluster) {
    && IssuedOk(c)
    && (forall n :: n in c.nodes ==> NodeOk(encode, c.leases, n, c.nodes[n]))
    && (forall m :: m in c.sent ==> Leased(c.leases, m.record))
  }

  predicate Grows<T(==)>(some: map<Version, T>, more: map<Version, T>) {
    forall e :: e in some ==> e in more && more[e] == some[e]
  }

  // ---- One node ----------------------------------------------------------

  /** A node that issues a version it never issued before. */
  lemma FreshVersion(c: Cluster, n: string, wall: Int64)
    requires IssuedOk(c) && n in c.nodes && !Saturated(c.nodes[n].last)
    ensures NowAfter(n, c.nodes[n].last, wall) !in c.issued
  {
    var last := c.nodes[n].last;
    NowIsLater(n, last, wall);
    VersionsAntisymmetric(last, NowAfter(n, last, wall));
  }

  predicate Later(last: Version, later: Version) { AtMost(last, later) && (Saturated(last) ==> Saturated(later)) }

  lemma RecordStaysOk(leases: map<Version, string>, more: map<Version, string>, last: Version, later: Version,
                      record: Instance)
    requires RecordOk(leases, last, record) && Grows(leases, more) && Later(last, later)
    ensures RecordOk(more, later, record)
  {
    if AtMost(record.version, last) {
      VersionsTransitive(record.version, last, later);
    }
  }

  /** More leases and a later clock keep a node sound. */
  lemma NodeStaysOk(encode: Encoding, leases: map<Version, string>, more: map<Version, string>, n: string, node: Node,
                    later: Version)
    requires NodeOk(encode, leases, n, node) && Grows(leases, more) && Later(node.last, later) && Own(n, later)
    ensures NodeOk(encode, more, n, node.(last := later))
  {
    assert Holds(encode, node.(last := later)) == Holds(encode, node);
    forall record | RecordOk(leases, node.last, record)
      ensures RecordOk(more, later, record)
    {
      RecordStaysOk(leases, more, node.last, later, record);
    }
  }

  /** One more delivery keeps what a node stores sound. */
  lemma DeliveryStoresOk(encode: Encoding, leases: map<Version, string>, last: Version, s: Store, m: Mutation,
                         now: Time)
    requires StoredOk(leases, last, s) && RecordOk(leases, last, m.record)
    ensures StoredOk(leases, last, Step(encode, s, Deliver(m, now)))
  {
    var t := Step(encode, s, Deliver(m, now));
    forall k | k in t.entries
      ensures RecordOk(leases, last, t.entries[k].record)
    {
      DeliveryRecords(encode, s, m, now, k);
    }
  }

  /** Fences, delay marks and collection bring in no record. */
  lemma UpkeepStoresOk(encode: Encoding, leases: map<Version, string>, last: Version, s: Store, op: Op)
    requires StoredOk(leases, last, s) && !op.Deliver?
    ensures StoredOk(leases, last, Step(encode, s, op))
  {
    var t := Step(encode, s, op);
    forall k | k in t.entries
      ensures RecordOk(leases, last, t.entries[k].record)
    {
      StepIsPerKey(encode, s, op, k);
    }
  }

  lemma OneMoreOp(encode: Encoding, node: Node, op: Op)
    ensures Holds(encode, Performed(node, op)) == Step(encode, Holds(encode, node), op)
    ensures Facts(node.history + [op]) == Facts(node.history) + FactsOf(op)
  {
    assert (node.history + [op])[..|node.history|] == node.history;
  }

  /** Applying a draft, marking, collecting, taking in a fence: the clock stands still. */
  lemma OpKeepsNode(encode: Encoding, leases: map<Version, string>, n: string, node: Node, op: Op)
    requires NodeOk(encode, leases, n, node) && (op.Deliver? ==> op.m in node.drafts)
    ensures NodeOk(encode, leases, n, Performed(node, op))
  {
    OneMoreOp(encode, node, op);
    if op.Deliver? {
      DeliveryStoresOk(encode, leases, node.last, Holds(encode, node), op.m, op.now);
    } else {
      UpkeepStoresOk(encode, leases, node.last, Holds(encode, node), op);
    }
  }

  /** The record a local write carries: its epoch's lease, and a version that is new
      and later than the epoch, however old the record it was built from. */
  lemma WrittenIsLeased(ttl: int, leases: map<Version, string>, last: Version, a: Action)
    requires Writes(a) && WellRead(a) && !Saturated(last)
    requires !a.Register? ==> RecordOk(leases, last, a.from.entry.value.record)
    ensures var version := NowAfter(a.n, last, a.r.wall);
            var more := if a.Register? then leases[version := a.r.leaseId] else leases;
            RecordOk(more, version, Written(ttl, a, version).record)
                && Written(ttl, a, version).record.version == version
  {
    var version := NowAfter(a.n, last, a.r.wall);
    NowIsLater(a.n, last, a.r.wall);
    if !a.Register? {
      var held := a.from.entry.value.record;
      VersionsTransitive(held.leaseEpoch, held.version, last);
      VersionsTransitive(held.leaseEpoch, last, version);
    }
  }

  // ---- Every step --------------------------------------------------------

  /** The clock does not go back, and the node stays sound. */
  ghost predicate MovesWell(encode: Encoding, leases: map<Version, string>, node: Node, moved: Node, a: Action) {
    && AtMost(node.last, moved.last) && (Draws(a) ==> moved.last == Drawn(node.last, a))
    && NodeOk(encode, LeasesAfter(leases, node.last, a), a.n, moved)
  }

  lemma DrawKeepsNode(encode: Encoding, ttl: int, leases: map<Version, string>, node: Node, a: Action)
    requires NodeOk(encode, leases, a.n, node) && WellRead(a) && Draws(a) && !Saturated(node.last)
             && Drawn(node.last, a) !in leases
    requires Writes(a) ==> WasRead(node.seen, ReadKey(a), a.from)
    ensures MovesWell(encode, leases, node, Moved(encode, ttl, node, a), a)
  {
    var version, more := Drawn(node.last, a), LeasesAfter(leases, node.last, a);
    NowIsLater(a.n, node.last, Wall(a));
    NodeStaysOk(encode, leases, more, a.n, node, version);
    if Writes(a) {
      if !a.Register? {
        var x :| x in node.seen && x.key == ReadKey(a) && x.cell.entry == a.from.entry;
        assert RecordOk(leases, node.last, x.cell.entry.value.record);
      }
      WrittenIsLeased(ttl, leases, node.last, a);
      assert Holds(encode, Moved(encode, ttl, node, a)) == Holds(encode, node.(last := version));
    }
  }

  lemma ObserveKeepsNode(encode: Encoding, ttl: int, leases: map<Version, string>, node: Node, a: Action)
    requires NodeOk(encode, leases, a.n, node) && a.Observe? && Leased(leases, a.m.record)
    ensures MovesWell(encode, leases, node, Moved(encode, ttl, node, a), a)
  {
    var later := ObserveAfter(a.n, node.last, a.wall, a.m.record.version);
    ObserveIsLater(a.n, node.last, a.wall, a.m.record.version);
    NodeStaysOk(encode, leases, leases, a.n, node, later);
    assert Holds(encode, Moved(encode, ttl, node, a)) == Holds(encode, node.(last := later));
  }

  lemma OpMoves(encode: Encoding, ttl: int, leases: map<Version, string>, node: Node, a: Action)
    requires OpOf(a).Some?
    ensures Moved(encode, ttl, node, a) == Performed(node, OpOf(a).value)
    ensures !Draws(a) && LeasesAfter(leases, node.last, a) == leases && Performed(node, OpOf(a).value).last == node.last
  {}

  lemma OpMovesWell(encode: Encoding, ttl: int, leases: map<Version, string>, node: Node, a: Action)
    requires NodeOk(encode, leases, a.n, node) && OpOf(a).Some?
    requires OpOf(a).value.Deliver? ==> OpOf(a).value.m in node.drafts
    ensures MovesWell(encode, leases, node, Moved(encode, ttl, node, a), a)
  {
    VersionsAntisymmetric(node.last, node.last);
    OpMoves(encode, ttl, leases, node, a);
    OpKeepsNode(encode, leases, a.n, node, OpOf(a).value);
  }

  lemma LookMovesWell(encode: Encoding, ttl: int, leases: map<Version, string>, node: Node, a: Action)
    requires NodeOk(encode, leases, a.n, node) && (a.Look? || a.PostFence? || a.Export?)
    ensures MovesWell(encode, leases, node, Moved(encode, ttl, node, a), a)
  {
    VersionsAntisymmetric(node.last, node.last);
    assert Holds(encode, Moved(encode, ttl, node, a)) == Holds(encode, node);
  }

  /** The acting node stays sound, and its clock does not go back. */
  lemma MovedStaysOk(encode: Encoding, ttl: int, skewMillis: nat, c: Cluster, a: Action)
    requires ClusterOk(encode, c) && Enabled(encode, skewMillis, c, a)
    ensures MovesWell(encode, c.leases, c.nodes[a.n], Moved(encode, ttl, c.nodes[a.n], a), a)
  {
    var node := c.nodes[a.n];
    assert NodeOk(encode, c.leases, a.n, node);
    if Draws(a) {
      FreshVersion(c, a.n, Wall(a));
      DrawKeepsNode(encode, ttl, c.leases, node, a);
    } else if a.Observe? {
      ObserveKeepsNode(encode, ttl, c.leases, node, a);
    } else if OpOf(a).Some? {
      OpMovesWell(encode, ttl, c.leases, node, a);
    } else {
      LookMovesWell(encode, ttl, c.leases, node, a);
    }
  }

  lemma LeasesGrow(c: Cluster, a: Action)
    requires IssuedOk(c) && a.n in c.nodes && (Draws(a) ==> !Saturated(c.nodes[a.n].last))
    ensures Grows(c.leases, LeasesAfter(c.leases, c.nodes[a.n].last, a))
  {
    if a.Register? {
      FreshVersion(c, a.n, Wall(a));
    }
  }

  lemma IssuesGrow(ttl: int, c: Cluster, a: Action)
    requires IssuedOk(c) && a.n in c.nodes && WellRead(a) && (Draws(a) ==> !Saturated(c.nodes[a.n].last))
    ensures Grows(c.issues, IssuesAfter(ttl, c.issues, c.nodes[a.n].last, a))
  {
    if Writes(a) {
      FreshVersion(c, a.n, Wall(a));
    }
  }

  lemma IssuedStaysOk(ttl: int, c: Cluster, a: Action, moved: Node)
    requires IssuedOk(c) && a.n in c.nodes && WellRead(a) && (Draws(a) ==> !Saturated(c.nodes[a.n].last))
    requires AtMost(c.nodes[a.n].last, moved.last) && (Draws(a) ==> moved.last == Drawn(c.nodes[a.n].last, a))
    ensures var last := c.nodes[a.n].last;
            IssuedOk(c.(nodes := c.nodes[a.n := moved], leases := LeasesAfter(c.leases, last, a),
                        issues := IssuesAfter(ttl, c.issues, last, a),
                        issued := if Draws(a) then c.issued + [Drawn(last, a)] else c.issued))
  {
    if Draws(a) {
      FreshVersion(c, a.n, Wall(a));
      VersionsAntisymmetric(moved.last, moved.last);
    }
    forall i | 0 <= i < |c.issued|
      ensures AtMost(c.issued[i], c.nodes[a.n := moved][c.issued[i].origin].last)
    {
      if c.issued[i].origin == a.n {
        VersionsTransitive(c.issued[i], c.nodes[a.n].last, moved.last);
      }
    }
  }

  lemma SentIsLeased(encode: Encoding, c: Cluster, a: Action, m: Mutation)
    requires ClusterOk(encode, c) && a.n in c.nodes && (a.Finish? ==> a.m in c.nodes[a.n].drafts)
    requires a.Export? ==> a.key in Holds(encode, c.nodes[a.n]).entries
    requires m in SentBy(encode, c.nodes[a.n], a)
    ensures Leased(c.leases, m.record)
  {
    assert NodeOk(encode, c.leases, a.n, c.nodes[a.n]);
    if a.Export? {
      assert RecordOk(c.leases, c.nodes[a.n].last, Holds(encode, c.nodes[a.n]).entries[a.key].record);
    }
  }

  lemma SentStaysLeased(encode: Encoding, c: Cluster, a: Action, m: Mutation)
    requires ClusterOk(encode, c) && a.n in c.nodes && (a.Finish? ==> a.m in c.nodes[a.n].drafts)
    requires a.Export? ==> a.key in Holds(encode, c.nodes[a.n]).entries
    requires Draws(a) ==> !Saturated(c.nodes[a.n].last)
    requires m in c.sent + SentBy(encode, c.nodes[a.n], a)
    ensures Leased(LeasesAfter(c.leases, c.nodes[a.n].last, a), m.record)
  {
    LeasesGrow(c, a);
    if m !in c.sent {
      SentIsLeased(encode, c, a, m);
    }
  }

  lemma OtherNodeStaysOk(encode: Encoding, leases: map<Version, string>, more: map<Version, string>, n: string,
                         node: Node)
    requires NodeOk(encode, leases, n, node) && Grows(leases, more)
    ensures NodeOk(encode, more, n, node)
  {
    VersionsAntisymmetric(node.last, node.last);
    NodeStaysOk(encode, leases, more, n, node, node.last);
  }

  lemma SoundTogether(encode: Encoding, c: Cluster, d: Cluster, n: string, moved: Node)
    requires ClusterOk(encode, c) && n in c.nodes && d.nodes == c.nodes[n := moved]
    requires IssuedOk(d) && NodeOk(encode, d.leases, n, moved) && Grows(c.leases, d.leases)
    requires forall m :: m in d.sent ==> Leased(d.leases, m.record)
    ensures ClusterOk(encode, d)
  {
    forall k | k in d.nodes
      ensures NodeOk(encode, d.leases, k, d.nodes[k])
    {
      if k != n {
        OtherNodeStaysOk(encode, c.leases, d.leases, k, c.nodes[k]);
      }
    }
  }

  /** Every step keeps the cluster sound. */
  lemma ActKeepsOk(encode: Encoding, ttl: int, skewMillis: nat, c: Cluster, a: Action)
    requires ClusterOk(encode, c) && Enabled(encode, skewMillis, c, a)
    ensures ClusterOk(encode, Act(encode, ttl, c, a))
  {
    var d, moved := Act(encode, ttl, c, a), Moved(encode, ttl, c.nodes[a.n], a);
    MovedStaysOk(encode, ttl, skewMillis, c, a);
    LeasesGrow(c, a);
    IssuedStaysOk(ttl, c, a, moved);
    assert IssuedOk(d);
    forall m | m in d.sent
      ensures Leased(d.leases, m.record)
    {
      SentStaysLeased(encode, c, a, m);
    }
    SoundTogether(encode, c, d, a.n, moved);
  }

  // ---- Runs --------------------------------------------------------------

  /** A cluster before anything happened: any nodes, with clocks at zero. */
  predicate Initial(c: Cluster) {
    && c.sent == {} && c.posted == {} && c.leases == map[] && c.issues == map[] && c.issued == []
    && forall n :: n in c.nodes ==> c.nodes[n] == Node(ZERO_VERSION, [], {}, {})
  }

  ghost predicate RunOf(encode: Encoding, ttl: int, skewMillis: nat, states: seq<Cluster>, actions: seq<Action>) {
    && |states| == |actions| + 1 && Initial(states[0])
    && forall i :: 0 <= i < |actions| ==>
         Enabled(encode, skewMillis, states[i], actions[i]) && states[i + 1] == Act(encode, ttl, states[i], actions[i])
  }

  lemma {:induction false} RunIsOk(encode: Encoding, ttl: int, skewMillis: nat, states: seq<Cluster>,
                                   actions: seq<Action>)
    requires RunOf(encode, ttl, skewMillis, states, actions)
    ensures ClusterOk(encode, states[|actions|])
  {
    if actions != [] {
      var last := |actions| - 1;
      RunIsOk(encode, ttl, skewMillis, states[..|actions|], actions[..last]);
      ActKeepsOk(encode, ttl, skewMillis, states[last], actions[last]);
    }
  }

  /** In any run, no version is issued twice anywhere in the cluster. */
  lemma VersionsAreUnique(encode: Encoding, ttl: int, skewMillis: nat, states: seq<Cluster>, actions: seq<Action>,
                          i: nat, j: nat)
    requires RunOf(encode, ttl, skewMillis, states, actions) && i < j < |states[|actions|].issued|
    ensures states[|actions|].issued[i] != states[|actions|].issued[j]
  {
    RunIsOk(encode, ttl, skewMillis, states, actions);
  }

  /** What a node issues next is later than every mutation delivered to it. */
  lemma HappensBefore(encode: Encoding, ttl: int, skewMillis: nat, states: seq<Cluster>, actions: seq<Action>,
                      n: string, m: Mutation, wall: Int64)
    requires RunOf(encode, ttl, skewMillis, states, actions)
    requires var c := states[|actions|];
             n in c.nodes && MutationFact(m) in Facts(c.nodes[n].history) && !Saturated(c.nodes[n].last)
    ensures Before(m.record.version, NowAfter(n, states[|actions|].nodes[n].last, wall))
  {
    RunIsOk(encode, ttl, skewMillis, states, actions);
    var node := states[|actions|].nodes[n];
    assert NodeOk(encode, states[|actions|].leases, n, node);
    NowIsLater(n, node.last, wall);
    VersionsTransitive(m.record.version, node.last, NowAfter(n, node.last, wall));
  }

  /** Equal lease epochs mean one lease, in and across all registries. */
  lemma EpochsNameLeases(encode: Encoding, ttl: int, skewMillis: nat, states: seq<Cluster>, actions: seq<Action>,
                         a: string, b: string)
    requires RunOf(encode, ttl, skewMillis, states, actions)
    requires a in states[|actions|].nodes && b in states[|actions|].nodes
    ensures LeasesAgree(Holds(encode, states[|actions|].nodes[a]), Holds(encode, states[|actions|].nodes[b]))
    ensures LeasesCoherent(Facts(states[|actions|].nodes[a].history) + Facts(states[|actions|].nodes[b].history))
  {
    RunIsOk(encode, ttl, skewMillis, states, actions);
    var c := states[|actions|];
    assert NodeOk(encode, c.leases, a, c.nodes[a]) && NodeOk(encode, c.leases, b, c.nodes[b]);
  }

  // ---- Operation ids in runs ---------------------------------------------

  /** A client's operation id, for one instance. */
  datatype OpName = OpName(key: Key, operationId: string)

  predicate NamesOperation(a: Action) {
    (a.Heartbeat? || a.Deregister?) && a.operationId != "" && a.from.entry.Some?
  }

  function NameOf(a: Action): OpName
    requires NamesOperation(a)
  {
    OpName(a.from.entry.value.record.RecordKey(), a.operationId)
  }

  /** No two heartbeats or deregistrations of an instance share an operation id. */
  ghost predicate OperationsDistinct(actions: seq<Action>) {
    forall i, j :: 0 <= i < j < |actions| && NamesOperation(actions[i]) && NamesOperation(actions[j])
      ==> NameOf(actions[i]) != NameOf(actions[j])
  }

  /** The rank each operation's write was given. */
  function LedgerAfter(ttl: int, ledger: map<OpName, Rank>, last: Version, a: Action): map<OpName, Rank>
    requires WellRead(a)
  {
    if NamesOperation(a) then ledger[NameOf(a) := MutationRank(Written(ttl, a, Drawn(last, a)))] else ledger
  }

  predicate Entered(ledger: map<OpName, Rank>, m: Mutation) {
    m.operationId != "" ==>
      var name := OpName(m.record.RecordKey(), m.operationId);
      name in ledger && ledger[name] == MutationRank(m)
  }

  ghost predicate NodeEntered(ledger: map<OpName, Rank>, node: Node) {
    && (forall m :: m in node.drafts ==> Entered(ledger, m))
    && (forall m :: MutationFact(m) in Facts(node.history) ==> Entered(ledger, m))
  }

  ghost predicate ClusterEntered(ledger: map<OpName, Rank>, c: Cluster) {
    && (forall n :: n in c.nodes ==> NodeEntered(ledger, c.nodes[n]))
    && (forall m :: m in c.sent ==> Entered(ledger, m))
  }

  lemma EnteredGrows(ledger: map<OpName, Rank>, more: map<OpName, Rank>, node: Node)
    requires NodeEntered(ledger, node) && forall name :: name in ledger ==> name in more && more[name] == ledger[name]
    ensures NodeEntered(more, node)
  {}

  /** The registry operation of an action adds to the facts at most a draft. */
  lemma OpKeepsEntered(encode: Encoding, ledger: map<OpName, Rank>, node: Node, op: Op)
    requires NodeEntered(ledger, node) && (op.Deliver? ==> op.m in node.drafts)
    ensures NodeEntered(ledger, Performed(node, op))
  {
    OneMoreOp(encode, node, op);
  }

  lemma WrittenIsEntered(ttl: int, ledger: map<OpName, Rank>, last: Version, a: Action)
    requires Writes(a) && WellRead(a)
    ensures Entered(LedgerAfter(ttl, ledger, last, a), Written(ttl, a, Drawn(last, a)))
  {}

  lemma MovedIsEntered(encode: Encoding, ttl: int, ledger: map<OpName, Rank>, c: Cluster, a: Action)
    requires ClusterEntered(ledger, c) && a.n in c.nodes && WellRead(a)
    requires (a.Observe? ==> a.m in c.sent) && (a.Finish? ==> a.m in c.nodes[a.n].drafts)
             && (a.Upkeep? ==> !a.op.Deliver?)
    requires NamesOperation(a) ==> NameOf(a) !in ledger
    ensures NodeEntered(LedgerAfter(ttl, ledger, c.nodes[a.n].last, a), Moved(encode, ttl, c.nodes[a.n], a))
  {
    var node := c.nodes[a.n];
    assert NodeEntered(ledger, node);
    if OpOf(a).Some? {
      OpMoves(encode, ttl, c.leases, node, a);
      OpKeepsEntered(encode, ledger, node, OpOf(a).value);
    } else {
      EnteredGrows(ledger, LedgerAfter(ttl, ledger, node.last, a), node);
      if Writes(a) {
        WrittenIsEntered(ttl, ledger, node.last, a);
      }
    }
  }

  lemma SentIsEntered(encode: Encoding, ledger: map<OpName, Rank>, c: Cluster, a: Action)
    requires ClusterEntered(ledger, c) && a.n in c.nodes && (a.Finish? ==> a.m in c.nodes[a.n].drafts)
    requires a.Export? ==> a.key in Holds(encode, c.nodes[a.n]).entries
    ensures forall m :: m in SentBy(encode, c.nodes[a.n], a) ==> Entered(ledger, m)
  {
    assert NodeEntered(ledger, c.nodes[a.n]);
  }

  lemma EnteredTogether(ledger: map<OpName, Rank>, more: map<OpName, Rank>, c: Cluster, d: Cluster, n: string,
                        moved: Node)
    requires ClusterEntered(ledger, c) && n in c.nodes && d.nodes == c.nodes[n := moved] && NodeEntered(more, moved)
    requires forall name :: name in ledger ==> name in more && more[name] == ledger[name]
    requires forall m :: m in d.sent ==> m in c.sent || Entered(ledger, m)
    ensures ClusterEntered(more, d)
  {
    forall k | k in d.nodes
      ensures NodeEntered(more, d.nodes[k])
    {
      if k != n {
        EnteredGrows(ledger, more, c.nodes[k]);
      }
    }
  }

  lemma ActKeepsEntered(encode: Encoding, ttl: int, skewMillis: nat, ledger: map<OpName, Rank>, c: Cluster, a: Action)
    requires ClusterEntered(ledger, c) && Enabled(encode, skewMillis, c, a)
    requires NamesOperation(a) ==> NameOf(a) !in ledger
    ensures ClusterEntered(LedgerAfter(ttl, ledger, c.nodes[a.n].last, a), Act(encode, ttl, c, a))
  {
    MovedIsEntered(encode, ttl, ledger, c, a);
    SentIsEntered(encode, ledger, c, a);
    EnteredTogether(ledger, LedgerAfter(ttl, ledger, c.nodes[a.n].last, a), c, Act(encode, ttl, c, a), a.n,
                    Moved(encode, ttl, c.nodes[a.n], a));
  }

  ghost predicate NamedIn(ledger: map<OpName, Rank>, actions: seq<Action>) {
    forall name :: name in ledger ==>
          exists i :: 0 <= i < |actions| && NamesOperation(actions[i]) && NameOf(actions[i]) == name
  }

  lemma NamedOnceMore(ttl: int, ledger: map<OpName, Rank>, last: Version, actions: seq<Action>, a: Action)
    requires NamedIn(ledger, actions) && WellRead(a)
    ensures NamedIn(LedgerAfter(ttl, ledger, last, a), actions + [a])
  {
    var all := actions + [a];
    forall name | name in LedgerAfter(ttl, ledger, last, a)
      ensures exists i :: 0 <= i < |all| && NamesOperation(all[i]) && NameOf(all[i]) == name
    {
      if name in ledger {
        var i :| 0 <= i < |actions| && NamesOperation(actions[i]) && NameOf(actions[i]) == name;
        assert all[i] == actions[i];
      } else {
        assert NamesOperation(all[|actions|]) && NameOf(all[|actions|]) == name;
      }
    }
  }

  lemma NewName(ledger: map<OpName, Rank>, actions: seq<Action>, a: Action)
    requires NamedIn(ledger, actions) && OperationsDistinct(actions + [a])
    ensures NamesOperation(a) ==> NameOf(a) !in ledger
  {
    var all := actions + [a];
    if NamesOperation(a) {
      forall name | name in ledger
        ensures name != NameOf(a)
      {
        var i :| 0 <= i < |actions| && NamesOperation(actions[i]) && NameOf(actions[i]) == name;
        assert all[i] == actions[i] && all[|actions|] == a;
      }
    }
  }

  /** In a run whose clients never use an operation id twice for one instance, every
      mutation that carries one has the rank of the one write it was used for. */
  lemma {:induction false} RunEnters(encode: Encoding, ttl: int, skewMillis: nat, states: seq<Cluster>,
                                     actions: seq<Action>)
    returns (ledger: map<OpName, Rank>)
    requires RunOf(encode, ttl, skewMillis, states, actions) && OperationsDistinct(actions)
    ensures ClusterEntered(ledger, states[|actions|]) && NamedIn(ledger, actions)
  {
    ledger := map[];
    if actions != [] {
      var last := |actions| - 1;
      var init, a := actions[..last], actions[last];
      assert actions == init + [a];
      var before := RunEnters(encode, ttl, skewMillis, states[..|actions|], init);
      NewName(before, init, a);
      ActKeepsEntered(encode, ttl, skewMillis, before, states[last], a);
      NamedOnceMore(ttl, before, states[last].nodes[a.n].last, init, a);
      ledger := LedgerAfter(ttl, before, states[last].nodes[a.n].last, a);
    }
  }

  lemma EnteredIsCoherent(ledger: map<OpName, Rank>, node: Node)
    requires NodeEntered(ledger, node)
    ensures OperationsCoherent(Facts(node.history))
  {}

  /** In any run whose clients never use an operation id twice for one instance, two nodes
      that received the same ranks of a key agree on its authority, whichever way each
      arrived. */
  lemma ClusterConverges(encode: Encoding, ttl: int, skewMillis: nat, states: seq<Cluster>, actions: seq<Action>,
                         a: string, b: string, key: Key)
    requires RunOf(encode, ttl, skewMillis, states, actions) && OperationsDistinct(actions)
    requires a in states[|actions|].nodes && b in states[|actions|].nodes
    requires var c := states[|actions|];
             forall rank :: Received(Facts(c.nodes[a].history), key, rank)
                    <==> Received(Facts(c.nodes[b].history), key, rank)
    ensures AuthorityOf(Holds(encode, states[|actions|].nodes[a]), key)
            == AuthorityOf(Holds(encode, states[|actions|].nodes[b]), key)
  {
    var c := states[|actions|];
    EpochsNameLeases(encode, ttl, skewMillis, states, actions, a, a);
    EpochsNameLeases(encode, ttl, skewMillis, states, actions, b, b);
    var ledger := RunEnters(encode, ttl, skewMillis, states, actions);
    EnteredIsCoherent(ledger, c.nodes[a]);
    EnteredIsCoherent(ledger, c.nodes[b]);
    Convergence.Convergence(encode, c.nodes[a].history, c.nodes[b].history, key);
  }

  // ---- Local writes in runs ----------------------------------------------

  /** In any run a node whose clock is not saturated is at or above every version it
      stores: what keeps its heartbeats, deregistrations and expiries from being stale
      when nothing is written between their read and their apply. */
  lemma ClockCoversStore(encode: Encoding, ttl: int, skewMillis: nat, states: seq<Cluster>, actions: seq<Action>,
                         n: string)
    requires RunOf(encode, ttl, skewMillis, states, actions)
    requires n in states[|actions|].nodes && !Saturated(states[|actions|].nodes[n].last)
    ensures var node := states[|actions|].nodes[n];
            && StoreOk(Holds(encode, node)) && Own(n, node.last)
            && Leases.VersionsCovered(Holds(encode, node), node.last)
  {
    RunIsOk(encode, ttl, skewMillis, states, actions);
    var c := states[|actions|];
    assert NodeOk(encode, c.leases, n, c.nodes[n]);
    RunKeepsOk(encode, EMPTY_STORE, c.nodes[n].history);
  }

  lemma HeartbeatsWin(encode: Encoding, ttl: int, skewMillis: nat, states: seq<Cluster>, actions: seq<Action>,
                      n: string, key: Key, operationId: string, r: Reading)
    requires RunOf(encode, ttl, skewMillis, states, actions)
    requires n in states[|actions|].nodes && !Saturated(states[|actions|].nodes[n].last)
    requires var held := Holds(encode, states[|actions|].nodes[n]).entries;
             key in held && !held[key].record.ExplicitlyTerminal()
    requires ValidIdentifier(n, MAX_IDENTIFIER) && ValidOperationId(operationId) && r.Ok() && ttl >= 0
    ensures var node := states[|actions|].nodes[n];
            var s := Holds(encode, node);
            var m := HeartbeatMutation(s.entries[key].record, n, NowAfter(n, node.last, r.wall), operationId, ttl, r);
            var result := ApplyMutation(encode, CellAt(s, key), m, r.registry).1;
            if s.entries[key].window.Knows(operationId) then result.Duplicate? else result.Applied?
  {
    ClockCoversStore(encode, ttl, skewMillis, states, actions, n);
    var node := states[|actions|].nodes[n];
    Service.HeartbeatIsNeverStale(encode, Holds(encode, node), node.last, n, key, operationId, ttl, r);
  }

  lemma DeregistersWin(encode: Encoding, ttl: int, skewMillis: nat, states: seq<Cluster>, actions: seq<Action>,
                       n: string, key: Key, operationId: string, demo: bool, r: Reading)
    requires RunOf(encode, ttl, skewMillis, states, actions)
    requires n in states[|actions|].nodes && !Saturated(states[|actions|].nodes[n].last)
    requires key in Holds(encode, states[|actions|].nodes[n]).entries
    requires ValidIdentifier(n, MAX_IDENTIFIER) && ValidOperationId(operationId) && r.Ok()
    ensures var node := states[|actions|].nodes[n];
            var s := Holds(encode, node);
            var m := DeregisterMutation(s.entries[key].record, n, NowAfter(n, node.last, r.wall), operationId, demo, r);
            var result := ApplyMutation(encode, CellAt(s, key), m, r.registry).1;
            if s.entries[key].window.Knows(operationId) then result.Duplicate? else result.Applied?
  {
    ClockCoversStore(encode, ttl, skewMillis, states, actions, n);
    var node := states[|actions|].nodes[n];
    Service.DeregisterIsNeverStale(encode, Holds(encode, node), node.last, n, key, operationId, demo, r);
  }

  /** A registration wins too, once the clock has reached the epochs of the fences held:
      those are the only thing that enters a registry without passing the clock. */
  lemma RegistersWin(encode: Encoding, ttl: int, skewMillis: nat, states: seq<Cluster>, actions: seq<Action>,
                     n: string, request: Request, r: Reading)
    requires RunOf(encode, ttl, skewMillis, states, actions)
    requires n in states[|actions|].nodes && !Saturated(states[|actions|].nodes[n].last)
    requires var node := states[|actions|].nodes[n];
             forall k :: k in Holds(encode, node).fences ==> AtMost(Holds(encode, node).fences[k].leaseEpoch, node.last)
    requires ValidIdentifier(n, MAX_IDENTIFIER) && request.Valid() && r.Ok() && r.wall > 0 && ttl >= 0
    ensures var node := states[|actions|].nodes[n];
            var c := CellAt(Holds(encode, node), request.RequestKey());
            var m := RegisterMutation(c, request, n, NowAfter(n, node.last, r.wall), ttl, r);
            ApplyMutation(encode, c, m, r.registry).1.Applied? <==> NextGeneration(c) != 0
  {
    ClockCoversStore(encode, ttl, skewMillis, states, actions, n);
    RunIsOk(encode, ttl, skewMillis, states, actions);
    var c, node := states[|actions|], states[|actions|].nodes[n];
    var s := Holds(encode, node);
    assert NodeOk(encode, c.leases, n, node);
    forall k | k in s.entries
      ensures AtMost(s.entries[k].record.leaseEpoch, node.last)
    {
      assert RecordOk(c.leases, node.last, s.entries[k].record);
      VersionsTransitive(s.entries[k].record.leaseEpoch, s.entries[k].record.version, node.last);
    }
    Service.RegisterIsNeverStale(encode, s, node.last, n, request, ttl, r);
  }

  // ---- What a pull needs of a server -------------------------------------

  predicate NoneDelayed(some: set<Mutation>) { forall m :: m in some ==> !m.kind.Delayed? }

  ghost predicate NodeExports(encode: Encoding, node: Node) { Exportable(Holds(encode, node))
            && NoneDelayed(node.drafts) }

  ghost predicate ClusterExports(encode: Encoding, c: Cluster) {
    (forall n :: n in c.nodes ==> NodeExports(encode, c.nodes[n])) && NoneDelayed(c.sent)
  }

  predicate CellExports(cell: Cell) {
    cell.entry.Some? ==> !cell.entry.value.kind.Delayed? && cell.entry.value.record.Stamped()
  }

  lemma CellStepExports(encode: Encoding, cell: Cell, key: Key, op: Op)
    requires CellExports(cell)
    requires (op.Deliver? ==> !op.m.kind.Delayed?) && (op.Delay? ==> op.at != ZERO_TIME)
    ensures CellExports(StepCell(encode, cell, key, op))
  {}

  lemma StepKeepsExportable(encode: Encoding, s: Store, op: Op)
    requires Exportable(s)
    requires (op.Deliver? ==> !op.m.kind.Delayed?) && (op.Delay? ==> op.at != ZERO_TIME)
    ensures Exportable(Step(encode, s, op))
  {
    var t := Step(encode, s, op);
    forall k | k in t.entries
      ensures !t.entries[k].kind.Delayed? && t.entries[k].record.Stamped()
    {
      StepIsPerKey(encode, s, op, k);
      CellStepExports(encode, CellAt(s, k), k, op);
      assert CellExports(CellAt(t, k));
    }
  }

  lemma OpKeepsExports(encode: Encoding, node: Node, op: Op)
    requires NodeExports(encode, node)
    requires (op.Deliver? ==> op.m in node.drafts) && (op.Delay? ==> op.at != ZERO_TIME)
    ensures NodeExports(encode, Performed(node, op))
  {
    OneMoreOp(encode, node, op);
    StepKeepsExportable(encode, Holds(encode, node), op);
  }

  lemma MovedExports(encode: Encoding, ttl: int, c: Cluster, a: Action)
    requires ClusterExports(encode, c) && a.n in c.nodes && WellRead(a) && DatesMarks(a)
    requires (a.Observe? ==> a.m in c.sent) && (a.Finish? ==> a.m in c.nodes[a.n].drafts)
    requires a.Upkeep? ==> a.op.Delay? || a.op.Gc?
    ensures NodeExports(encode, Moved(encode, ttl, c.nodes[a.n], a))
  {
    var node := c.nodes[a.n];
    assert NodeExports(encode, node);
    if OpOf(a).Some? {
      OpMoves(encode, ttl, c.leases, node, a);
      OpKeepsExports(encode, node, OpOf(a).value);
    } else {
      assert Holds(encode, Moved(encode, ttl, node, a)) == Holds(encode, node);
    }
  }

  lemma SentExports(encode: Encoding, c: Cluster, a: Action)
    requires ClusterExports(encode, c) && a.n in c.nodes && (a.Finish? ==> a.m in c.nodes[a.n].drafts)
    requires a.Export? ==> a.key in Holds(encode, c.nodes[a.n]).entries
    ensures NoneDelayed(SentBy(encode, c.nodes[a.n], a))
  {
    assert NodeExports(encode, c.nodes[a.n]);
  }

  lemma ExportsTogether(encode: Encoding, c: Cluster, d: Cluster, n: string, moved: Node)
    requires ClusterExports(encode, c) && n in c.nodes && d.nodes == c.nodes[n := moved]
    requires NodeExports(encode, moved) && NoneDelayed(d.sent)
    ensures ClusterExports(encode, d)
  {}

  lemma ActKeepsExports(encode: Encoding, ttl: int, skewMillis: nat, c: Cluster, a: Action)
    requires ClusterExports(encode, c) && Enabled(encode, skewMillis, c, a) && DatesMarks(a)
    ensures ClusterExports(encode, Act(encode, ttl, c, a))
  {
    MovedExports(encode, ttl, c, a);
    SentExports(encode, c, a);
    ExportsTogether(encode, c, Act(encode, ttl, c, a), a.n, Moved(encode, ttl, c.nodes[a.n], a));
  }

  /** Delay marks are stamped with a clock that does not read the zero time. */
  predicate DatesMarks(a: Action) { a.Upkeep? && a.op.Delay? ==> a.op.at != ZERO_TIME }

  lemma {:induction false} RunExports(encode: Encoding, ttl: int, skewMillis: nat, states: seq<Cluster>,
                                      actions: seq<Action>)
    requires RunOf(encode, ttl, skewMillis, states, actions)
    requires forall i :: 0 <= i < |actions| ==> DatesMarks(actions[i])
    ensures ClusterExports(encode, states[|actions|])
  {
    if actions != [] {
      var last := |actions| - 1;
      RunExports(encode, ttl, skewMillis, states[..|actions|], actions[..last]);
      ActKeepsExports(encode, ttl, skewMillis, states[last], actions[last]);
    }
  }

  /** In any run, any node may pull from any other: the server's cells are sound, all
      it holds exports validly (no record of kind DELAYED is ever reached), and both
      agree on leases. Only clock skew is left to the moment of the pull. */
  lemma AnyNodeCanPull(encode: Encoding, ttl: int, skewMillis: nat, states: seq<Cluster>, actions: seq<Action>,
                       a: string, b: string)
    requires RunOf(encode, ttl, skewMillis, states, actions)
    requires forall i :: 0 <= i < |actions| ==> DatesMarks(actions[i])
    requires a in states[|actions|].nodes && b in states[|actions|].nodes
    ensures Pullable(Holds(encode, states[|actions|].nodes[a]), Holds(encode, states[|actions|].nodes[b]))
  {
    EpochsNameLeases(encode, ttl, skewMillis, states, actions, a, b);
    RunExports(encode, ttl, skewMillis, states, actions);
    RunKeepsOk(encode, EMPTY_STORE, states[|actions|].nodes[b].history);
    assert NodeExports(encode, states[|actions|].nodes[b]);
  }

  // ---- Everything is held as it was issued -------------------------------

  predicate MutationAttested(issues: map<Version, Issue>, m: Mutation) {
    AsIssued(issues, m.record.version, IssueOf(m.kind, m.eventId, m.record))
  }

  ghost predicate NodeAttested(encode: Encoding, issues: map<Version, Issue>, node: Node) {
    Attested(issues, Holds(encode, node)) && forall m :: m in node.drafts ==> MutationAttested(issues, m)
  }

  ghost predicate ClusterAttested(encode: Encoding, c: Cluster) {
    && (forall n :: n in c.nodes ==> NodeAttested(encode, c.issues, c.nodes[n]))
    && (forall m :: m in c.sent ==> MutationAttested(c.issues, m))
    && (forall f :: f in c.posted ==> FenceAttested(c.issues, f))
  }

  lemma DeliveryKeepsAttested(encode: Encoding, issues: map<Version, Issue>, s: Store, m: Mutation, now: Time)
    requires Attested(issues, s) && MutationAttested(issues, m)
    ensures Attested(issues, Step(encode, s, Deliver(m, now)))
  {
    var t := Step(encode, s, Deliver(m, now));
    forall k
      ensures k in t.entries ==> EntryAttested(issues, t.entries[k])
      ensures k in t.fences ==> FenceAttested(issues, t.fences[k])
    {
      DeliveryRecords(encode, s, m, now, k);
    }
  }

  lemma UpkeepKeepsAttested(encode: Encoding, issues: map<Version, Issue>, s: Store, op: Op)
    requires Attested(issues, s) && !op.Deliver? && (op.DeliverFence? ==> FenceAttested(issues, op.f))
    ensures Attested(issues, Step(encode, s, op))
  {
    var t := Step(encode, s, op);
    forall k
      ensures k in t.entries ==> EntryAttested(issues, t.entries[k])
      ensures k in t.fences ==> FenceAttested(issues, t.fences[k])
    {
      StepIsPerKey(encode, s, op, k);
      assert CellAt(t, k) == StepCell(encode, CellAt(s, k), k, op);
    }
  }

  lemma OpKeepsNodeAttested(encode: Encoding, issues: map<Version, Issue>, node: Node, op: Op)
    requires NodeAttested(encode, issues, node)
    requires (op.Deliver? ==> op.m in node.drafts) && (op.DeliverFence? ==> FenceAttested(issues, op.f))
    ensures NodeAttested(encode, issues, Performed(node, op))
  {
    OneMoreOp(encode, node, op);
    if op.Deliver? {
      DeliveryKeepsAttested(encode, issues, Holds(encode, node), op.m, op.now);
    } else {
      UpkeepKeepsAttested(encode, issues, Holds(encode, node), op);
    }
  }

  lemma AttestedGrows(encode: Encoding, issues: map<Version, Issue>, more: map<Version, Issue>, node: Node)
    requires NodeAttested(encode, issues, node) && Grows(issues, more)
    ensures NodeAttested(encode, more, node)
  {
    var s := Holds(encode, node);
    assert forall k :: k in s.entries ==> s.entries[k].record.version in issues;
    assert forall k :: k in s.fences ==> FenceAttested(issues, s.fences[k]);
    assert forall m :: m in node.drafts ==> MutationAttested(issues, m);
  }

  lemma OtherIsAttested(encode: Encoding, ttl: int, issues: map<Version, Issue>, node: Node, a: Action)
    requires NodeAttested(encode, issues, node) && WellRead(a) && OpOf(a).None?
    requires (a.Observe? ==> MutationAttested(issues, a.m)) && Grows(issues, IssuesAfter(ttl, issues, node.last, a))
    ensures NodeAttested(encode, IssuesAfter(ttl, issues, node.last, a), Moved(encode, ttl, node, a))
  {
    assert Holds(encode, Moved(encode, ttl, node, a)) == Holds(encode, node);
    AttestedGrows(encode, issues, IssuesAfter(ttl, issues, node.last, a), node);
    if Writes(a) {
      WrittenVersion(ttl, a, Drawn(node.last, a));
    }
  }

  lemma MovedIsAttested(encode: Encoding, ttl: int, c: Cluster, a: Action)
    requires ClusterAttested(encode, c) && IssuedOk(c) && a.n in c.nodes && WellRead(a)
             && (Draws(a) ==> !Saturated(c.nodes[a.n].last))
    requires (a.Observe? ==> a.m in c.sent) && (a.Finish? ==> a.m in c.nodes[a.n].drafts)
             && (a.ReceiveFence? ==> a.f in c.posted)
    requires a.Upkeep? ==> a.op.Delay? || a.op.Gc?
    ensures NodeAttested(encode, IssuesAfter(ttl, c.issues, c.nodes[a.n].last, a), Moved(encode, ttl, c.nodes[a.n], a))
  {
    assert NodeAttested(encode, c.issues, c.nodes[a.n]);
    if OpOf(a).Some? {
      OpMoves(encode, ttl, c.leases, c.nodes[a.n], a);
      OpKeepsNodeAttested(encode, c.issues, c.nodes[a.n], OpOf(a).value);
    } else {
      IssuesGrow(ttl, c, a);
      OtherIsAttested(encode, ttl, c.issues, c.nodes[a.n], a);
    }
  }

  lemma WrittenVersion(ttl: int, a: Action, version: Version)
    requires Writes(a) && WellRead(a)
    ensures Written(ttl, a, version).record.version == version
  {}

  lemma SentIsAttested(encode: Encoding, c: Cluster, a: Action)
    requires ClusterAttested(encode, c) && a.n in c.nodes && (a.Finish? ==> a.m in c.nodes[a.n].drafts)
    requires a.Export? ==> a.key in Holds(encode, c.nodes[a.n]).entries
    requires a.PostFence? ==> a.key in Holds(encode, c.nodes[a.n]).fences
    ensures forall m :: m in SentBy(encode, c.nodes[a.n], a) ==> MutationAttested(c.issues, m)
    ensures forall f :: f in PostedBy(encode, c.nodes[a.n], a) ==> FenceAttested(c.issues, f)
  {
    assert NodeAttested(encode, c.issues, c.nodes[a.n]);
  }

  lemma AttestedTogether(encode: Encoding, c: Cluster, d: Cluster, n: string, moved: Node)
    requires ClusterAttested(encode, c) && n in c.nodes && d.nodes == c.nodes[n := moved]
    requires NodeAttested(encode, d.issues, moved) && Grows(c.issues, d.issues)
    requires forall m :: m in d.sent ==> m in c.sent || MutationAttested(c.issues, m)
    requires forall f :: f in d.posted ==> f in c.posted || FenceAttested(c.issues, f)
    ensures ClusterAttested(encode, d)
  {
    forall k | k in d.nodes
      ensures NodeAttested(encode, d.issues, d.nodes[k])
    {
      if k != n {
        AttestedGrows(encode, c.issues, d.issues, c.nodes[k]);
      }
    }
  }

  lemma ActKeepsAttested(encode: Encoding, ttl: int, skewMillis: nat, c: Cluster, a: Action)
    requires ClusterAttested(encode, c) && IssuedOk(c) && Enabled(encode, skewMillis, c, a)
    ensures ClusterAttested(encode, Act(encode, ttl, c, a))
  {
    MovedIsAttested(encode, ttl, c, a);
    IssuesGrow(ttl, c, a);
    SentIsAttested(encode, c, a);
    AttestedTogether(encode, c, Act(encode, ttl, c, a), a.n, Moved(encode, ttl, c.nodes[a.n], a));
  }

  lemma {:induction false} RunAttests(encode: Encoding, ttl: int, skewMillis: nat, states: seq<Cluster>,
                                      actions: seq<Action>)
    requires RunOf(encode, ttl, skewMillis, states, actions)
    ensures ClusterAttested(encode, states[|actions|])
  {
    if actions != [] {
      var last := |actions| - 1;
      RunAttests(encode, ttl, skewMillis, states[..|actions|], actions[..last]);
      RunIsOk(encode, ttl, skewMillis, states[..|actions|], actions[..last]);
      ActKeepsAttested(encode, ttl, skewMillis, states[last], actions[last]);
    }
  }

  /** In any run, equal authorities of a key mean equal kind and generation: what a
      digest says of it differs, if at all, in whether the tombstone is collected. */
  lemma AuthorityFixesPayload(encode: Encoding, ttl: int, skewMillis: nat, states: seq<Cluster>, actions: seq<Action>,
                              a: string, b: string, key: Key)
    requires RunOf(encode, ttl, skewMillis, states, actions)
    requires a in states[|actions|].nodes && b in states[|actions|].nodes
    requires var s, t := Holds(encode, states[|actions|].nodes[a]), Holds(encode, states[|actions|].nodes[b]);
             Known(s, key) && Known(t, key) && AuthorityOf(s, key) == AuthorityOf(t, key)
    ensures var s, t := Holds(encode, states[|actions|].nodes[a]), Holds(encode, states[|actions|].nodes[b]);
            SamePayload(s, t, key) <==> (key in s.entries <==> key in t.entries)
  {
    RunAttests(encode, ttl, skewMillis, states, actions);
    var c := states[|actions|];
    assert NodeAttested(encode, c.issues, c.nodes[a]) && NodeAttested(encode, c.issues, c.nodes[b]);
    AttestedAlike(c.issues, Holds(encode, c.nodes[a]), Holds(encode, c.nodes[b]), key);
  }

  /** In any run, two nodes with equal authorities, as after pulls both ways, have
      matching digests of a shard if and only if they collected the same tombstones. */
  lemma ClusterDigestsMatch(encode: Encoding, ttl: int, skewMillis: nat, states: seq<Cluster>, actions: seq<Action>,
                            a: string, b: string, shardOf: ShardIndex, index: nat)
    requires RunOf(encode, ttl, skewMillis, states, actions)
    requires a in states[|actions|].nodes && b in states[|actions|].nodes
    requires forall key ::
             AuthorityOf(Holds(encode, states[|actions|].nodes[a]), key)
                 == AuthorityOf(Holds(encode, states[|actions|].nodes[b]), key)
    ensures var s, t := Holds(encode, states[|actions|].nodes[a]), Holds(encode, states[|actions|].nodes[b]);
            DigestsAgree(s, t, shardOf, index) <==> CollectedAlike(s, t, shardOf, index)
  {
    RunAttests(encode, ttl, skewMillis, states, actions);
    var c := states[|actions|];
    assert NodeAttested(encode, c.issues, c.nodes[a]) && NodeAttested(encode, c.issues, c.nodes[b]);
    RunKeepsOk(encode, EMPTY_STORE, c.nodes[a].history);
    RunKeepsOk(encode, EMPTY_STORE, c.nodes[b].history);
    DigestsMatchWhenCollectedAlike(c.issues, Holds(encode, c.nodes[a]), Holds(encode, c.nodes[b]), shardOf, index);
  }
}
