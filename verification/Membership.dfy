/** The membership table (backend/internal/cluster/table.go): a second lattice, in
    which a node answers every accusation against itself with a higher rank. */
module Membership {
  import opened Ordering
  import opened Versions
  import opened Model
  import opened Clock

  datatype MemberStatus = Alive | Suspect | Dead | Other(text: string) {
    predicate Known() { !Other? }

    function Priority(): int {
      match this
      case Dead => 3
      case Suspect => 2
      case Alive => 1
      case Other(_) => 0
    }
  }

  datatype Member = Member(
    nodeId: string, bootId: string, httpAddress: string, gossipAddress: string,
    status: MemberStatus, incarnation: UInt64, lastSeenAt: Time, version: Version)

  const NO_MEMBER := Member("", "", "", "", Other(""), 0, ZERO_TIME, ZERO_VERSION)

  datatype PeerState = PeerState(member: Member, lastOk: Option<Time>, latency: int)

  /** What Merge accepts at all. */
  predicate Admissible(m: Member) {
    m.nodeId != "" && m.bootId != "" && m.status.Known() && m.incarnation != 0 && m.version != ZERO_VERSION
  }

  // ---- The order ---------------------------------------------------------

  datatype MemberRank = MemberRank(incarnation: UInt64, version: Version, priority: int)

  function RankOf(m: Member): MemberRank { MemberRank(m.incarnation, m.version, m.status.Priority()) }

  function CompareMember(a: Member, b: Member): int {
    if a.incarnation < b.incarnation then -1
    else if a.incarnation > b.incarnation then 1
    else if CompareVersion(a.version, b.version) != 0 then CompareVersion(a.version, b.version)
    else CompareInts(a.status.Priority(), b.status.Priority())
  }

  predicate Outranks(a: Member, b: Member) { CompareMember(a, b) > 0 }

  /** A node without a record ranks below every record. */
  predicate RankAtMost(a: Option<Member>, b: Option<Member>) {
    a.None? || (b.Some? && CompareMember(a.value, b.value) <= 0)
  }

  predicate SameRank(a: Option<Member>, b: Option<Member>) {
    (a.None? && b.None?) || (a.Some? && b.Some? && RankOf(a.value) == RankOf(b.value))
  }

  /** A total order on ranks: ties are exactly equal ranks, and for two known
      statuses the rank fixes the status. */
  lemma MembersAntisymmetric(a: Member, b: Member)
    ensures CompareMember(a, b) == -CompareMember(b, a)
    ensures CompareMember(a, b) == 0 <==> RankOf(a) == RankOf(b)
    ensures CompareMember(a, b) == 0 && a.status.Known() && b.status.Known() ==> a.status == b.status
  {
    VersionsAntisymmetric(a.version, b.version);
  }

  lemma MembersTransitive(a: Member, b: Member, c: Member)
    requires CompareMember(a, b) <= 0 && CompareMember(b, c) <= 0
    ensures CompareMember(a, c) <= 0
    ensures CompareMember(a, b) < 0 || CompareMember(b, c) < 0 ==> CompareMember(a, c) < 0
  {
    if a.incarnation == b.incarnation == c.incarnation {
      VersionsTransitive(a.version, b.version, c.version);
    }
  }

  lemma RanksTransitive(a: Option<Member>, b: Option<Member>, c: Option<Member>)
    requires RankAtMost(a, b) && RankAtMost(b, c)
    ensures RankAtMost(a, c)
  {
    if a.Some? {
      MembersTransitive(a.value, b.value, c.value);
    }
  }

  lemma RanksAntisymmetric(a: Option<Member>, b: Option<Member>)
    requires RankAtMost(a, b) && RankAtMost(b, a)
    ensures SameRank(a, b)
  {
    if a.Some? {
      MembersAntisymmetric(a.value, b.value);
    }
  }

  // ---- Steps -------------------------------------------------------------

  datatype Config = Config(selfId: string, clockId: string, suspicion: int, dead: int)

  /** The table and the last value of the clock it stamps with. */
  datatype State = State(members: map<string, PeerState>, last: Version)

  function MemberAt(s: State, nodeId: string): Option<Member> {
    if nodeId in s.members then Some(s.members[nodeId].member) else None
  }

  predicate Accuses(config: Config, m: Member) { m.nodeId == config.selfId && !m.status.Alive? }

  function Adopted(s: State, m: Member): State {
    var held := m.nodeId in s.members;
    if held && CompareMember(m, s.members[m.nodeId].member) <= 0 then s
    else
      var base := if held then s.members[m.nodeId].(member := m) else PeerState(m, None, 0);
      s.(members := s.members[m.nodeId := if m.status.Alive? then base.(lastOk := Some(m.lastSeenAt)) else base])
  }

  /** refute: the table's own record moves past the accusation's incarnation. */
  function Refuted(config: Config, s: State, m: Member, wall: Int64, at: Time): State
    requires config.selfId in s.members
  {
    var self := s.members[config.selfId];
    if m.incarnation < self.member.incarnation then s
    else
      var version := NowAfter(config.clockId, s.last, wall);
      var answer := self.member.(incarnation := WrapUInt64(m.incarnation + 1), status := Alive, version := version,
                                 lastSeenAt := at);
      State(s.members[config.selfId := self.(member := answer, lastOk := Some(at))], version)
  }

  /** When Merge reports a change. */
  predicate Accepts(config: Config, s: State, m: Member)
    requires config.selfId in s.members
  {
    && Admissible(m)
    && if Accuses(config, m) then m.incarnation >= s.members[config.selfId].member.incarnation
       else MemberAt(s, m.nodeId).None? || Outranks(m, MemberAt(s, m.nodeId).value)
  }

  function Merged(config: Config, s: State, m: Member, wall: Int64, at: Time): State
    requires config.selfId in s.members
  {
    if !Admissible(m) then s
    else if Accuses(config, m) then Refuted(config, s, m, wall, at)
    else Adopted(s, m)
  }

  /** ObserveAlive's second half: the contact times of a record that stayed alive. */
  function Touched(s: State, nodeId: string, latency: int, at: Time): State {
    if nodeId !in s.members then s
    else
      var peer := s.members[nodeId];
      s.(members := s.members[nodeId := PeerState(peer.member.(lastSeenAt := at), Some(at), latency)])
  }

  /** ObserveAlive: the member merged as alive and seen now, then the contact. */
  function Contacted(config: Config, s: State, member: Member, latency: int, wall: Int64, now: Time): State
    requires config.selfId in s.members
  {
    var seen := member.(status := Alive, lastSeenAt := now);
    var merged := Merged(config, s, seen, wall, now);
    if Admissible(seen) && seen.nodeId in merged.members && merged.members[seen.nodeId].member.status.Alive?
    then Touched(merged, seen.nodeId, latency, now) else merged
  }

  function NextStatus(config: Config, m: Member, now: Time): MemberStatus {
    var age := Saturate(now - m.lastSeenAt);
    if m.status.Dead? then m.status
    else if age >= config.dead then Dead
    else if age >= config.suspicion && m.status.Alive? then Suspect
    else m.status
  }

  predicate Overdue(config: Config, s: State, k: string, now: Time) {
    k != config.selfId && k in s.members && NextStatus(config, s.members[k].member, now) != s.members[k].member.status
  }

  function Stamp(config: Config, s: State, wall: Int64): Version {
    NowAfter(config.clockId, s.last, wall).(origin := config.selfId)
  }

  function Marked(config: Config, s: State, k: string, now: Time, wall: Int64): State
    requires k in s.members
  {
    if !Overdue(config, s, k, now) then s
    else
      var peer := s.members[k];
      var mark := peer.member.(status := NextStatus(config, peer.member, now), version := Stamp(config, s, wall));
      State(s.members[k := peer.(member := mark)], NowAfter(config.clockId, s.last, wall))
  }

  /** Tick's loop; Go ranges over a map in any order. */
  function Ticked(config: Config, s: State, now: Time, order: seq<string>, walls: seq<Int64>): (t: State)
    requires |order| == |walls| && forall k :: k in order ==> k in s.members
    ensures t.members.Keys == s.members.Keys
  {
    if order == [] then s
    else
      var n := |order| - 1;
      Marked(config, Ticked(config, s, now, order[..n], walls[..n]), order[n], now, walls[n])
  }

  predicate NoRepeats(order: seq<string>) { forall i, j :: 0 <= i < j < |order| ==> order[i] != order[j] }

  /** An order in which a loop over the map may visit its keys. */
  predicate Visits(order: seq<string>, members: map<string, PeerState>) {
    NoRepeats(order) && (forall k :: k in order ==> k in members) && forall k :: k in members ==> k in order
  }

  datatype TableOp =
    | Merge(m: Member, wall: Int64, at: Time)
    | Touch(nodeId: string, latency: int, at: Time)
    | Tick(now: Time, order: seq<string>, walls: seq<Int64>)

  function Step(config: Config, s: State, op: TableOp): State
    requires config.selfId in s.members
  {
    match op
    case Merge(m, wall, at) => Merged(config, s, m, wall, at)
    case Touch(nodeId, latency, at) => Touched(s, nodeId, latency, at)
    case Tick(now, order, walls) =>
      if |order| == |walls| && Visits(order, s.members) then Ticked(config, s, now, order, walls) else s
  }

  function Run(config: Config, s: State, ops: seq<TableOp>): (t: State)
    requires config.selfId in s.members
    ensures config.selfId in t.members
  {
    if ops == [] then s else Step(config, Run(config, s, ops[..|ops| - 1]), ops[|ops| - 1])
  }

  // ---- The table ---------------------------------------------------------

  const SECOND := 1_000_000_000

  class Table {
    const selfId: string
    const clock: Hlc
    const suspicion: int
    const dead: int
    var members: map<string, PeerState>

    ghost predicate Valid()
      reads this
    {
      selfId in members
    }

    ghost function Settings(): Config { Config(selfId, clock.nodeId, suspicion, dead) }

    ghost function View(): State
      reads this, clock
    {
      State(members, clock.last)
    }

    constructor (self: Member, clock: Hlc, suspicion: int, dead: int)
      ensures Valid() && this.clock == clock && selfId == self.nodeId
      ensures members == map[self.nodeId := PeerState(self, None, 0)]
      ensures this.suspicion == if suspicion > 0 then suspicion else 5_000_000_000
      ensures this.dead == if dead > this.suspicion then dead else 15_000_000_000
    {
      var patience := if suspicion <= 0 then 5 * SECOND else suspicion;
      this.clock, this.suspicion := clock, patience;
      this.dead := if dead <= patience then 15 * SECOND else dead;
      selfId := self.nodeId;
      members := map[self.nodeId := PeerState(self, None, 0)];
    }

    method Merge(incoming: Member, wall: Int64, now: Time) returns (effective: Member, changed: bool)
      requires Valid()
      modifies this, clock
      ensures Valid() && View() == Merged(Settings(), old(View()), incoming, wall, now)
      ensures effective == if Admissible(incoming) then members[incoming.nodeId].member else NO_MEMBER
      ensures changed <==> Accepts(Settings(), old(View()), incoming)
    {
      if incoming.nodeId == "" || incoming.bootId == "" || !incoming.status.Known() || incoming.incarnation == 0
         || incoming.version == ZERO_VERSION {
        return NO_MEMBER, false;
      }
      if incoming.nodeId == selfId && incoming.status != Alive {
        effective, changed := Refute(incoming, wall, now);
        return;
      }
      var held := incoming.nodeId in members;
      if held && CompareMember(incoming, members[incoming.nodeId].member) <= 0 {
        return members[incoming.nodeId].member, false;
      }
      var next := PeerState(incoming, None, 0);
      if held {
        next := next.(lastOk := members[incoming.nodeId].lastOk, latency := members[incoming.nodeId].latency);
      }
      if incoming.status == Alive {
        next := next.(lastOk := Some(incoming.lastSeenAt));
      }
      members := members[incoming.nodeId := next];
      return next.member, true;
    }

    method Refute(incoming: Member, wall: Int64, now: Time) returns (effective: Member, changed: bool)
      requires Valid()
      modifies this, clock
      ensures Valid() && View() == Refuted(Settings(), old(View()), incoming, wall, now)
      ensures effective == members[selfId].member
      ensures changed <==> incoming.incarnation >= old(members[selfId]).member.incarnation
    {
      var self := members[selfId];
      if incoming.incarnation < self.member.incarnation {
        return self.member, false;
      }
      var version := clock.Now(wall);
      self := self.(member := self.member.(incarnation := WrapUInt64(incoming.incarnation + 1), status := Alive,
                                           version := version, lastSeenAt := now));
      self := self.(lastOk := Some(now));
      members := members[selfId := self];
      return self.member, true;
    }

    method ObserveAlive(member: Member, latency: int, wall: Int64, now: Time) returns (effective: Member, changed: bool)
      requires Valid()
      modifies this, clock
      ensures Valid() && View() == Contacted(Settings(), old(View()), member, latency, wall, now)
      ensures changed == Accepts(Settings(), old(View()), member.(status := Alive, lastSeenAt := now))
      ensures effective.status.Alive? ==>
                && member.nodeId in members && members[member.nodeId].member.lastSeenAt == now
                && members[member.nodeId].lastOk == Some(now) && members[member.nodeId].latency == latency
    {
      var seen := member.(status := Alive, lastSeenAt := now);
      effective, changed := Merge(seen, wall, now);
      if member.nodeId in members && effective.status == Alive {
        var state := members[member.nodeId];
        state := state.(lastOk := Some(now), latency := latency);
        state := state.(member := state.member.(lastSeenAt := now));
        members := members[member.nodeId := state];
      }
    }

    /** The body of Tick's loop. */
    method Mark(nodeId: string, now: Time, wall: Int64) returns (marked: bool)
      requires Valid() && nodeId in members
      modifies this, clock
      ensures Valid() && View() == Marked(Settings(), old(View()), nodeId, now, wall)
      ensures marked <==> Overdue(Settings(), old(View()), nodeId, now)
    {
      var state := members[nodeId];
      if nodeId == selfId || state.member.status == Dead {
        return false;
      }
      var age := Saturate(now - state.member.lastSeenAt);
      var next := state.member.status;
      if age >= dead {
        next := Dead;
      } else if age >= suspicion && state.member.status == Alive {
        next := Suspect;
      }
      if next == state.member.status {
        return false;
      }
      var version := clock.Now(wall);
      state := state.(member := state.member.(status := next, version := version));
      state := state.(member := state.member.(version := state.member.version.(origin := selfId)));
      members := members[nodeId := state];
      marked := true;
    }

    /** One pass of the failure detector, in the order and with the wall clock
        readings the loop meets. Nobody is left overdue, and the members returned
        are exactly the records it changed. */
    method Tick(now: Time, order: seq<string>, walls: seq<Int64>) returns (changed: seq<Member>)
      requires Valid() && Visits(order, members) && |walls| == |order|
      modifies this, clock
      ensures Valid() && View() == Ticked(Settings(), old(View()), now, order, walls)
      ensures forall k :: !Overdue(Settings(), View(), k, now)
      ensures changed == ChangedBy(Settings(), old(View()), now, order, walls)
    {
      changed := [];
      ghost var s := View();
      for i := 0 to |order|
        invariant View() == Ticked(Settings(), s, now, order[..i], walls[..i])
        invariant changed == ChangedBy(Settings(), s, now, order[..i], walls[..i])
      {
        NextMark(Settings(), s, now, order, walls, i);
        var marked := Mark(order[i], now, walls[i]);
        if marked {
          changed := changed + [members[order[i]].member];
        }
      }
      assert order[..|order|] == order && walls[..|walls|] == walls;
      NobodyOverdue(Settings(), s, now, order, walls);
    }
  }

  // ---- One member of a pass ----------------------------------------------

  /** The records a pass hands to the change hook. */
  function ChangedBy(config: Config, s: State, now: Time, order: seq<string>, walls: seq<Int64>): seq<Member>
    requires |order| == |walls| && forall k :: k in order ==> k in s.members
  {
    if order == [] then []
    else
      var n := |order| - 1;
      var init, t := Ticked(config, s, now, order[..n], walls[..n]), Ticked(config, s, now, order, walls);
      ChangedBy(config, s, now, order[..n], walls[..n]) +
      if Overdue(config, init, order[n], now) then [t.members[order[n]].member] else []
  }

  lemma NextMark(config: Config, s: State, now: Time, order: seq<string>, walls: seq<Int64>, i: nat)
    requires i < |order| == |walls| && forall k :: k in order ==> k in s.members
    ensures var init, t := Ticked(config, s, now, order[..i], walls[..i]),
            Ticked(config, s, now, order[..i + 1], walls[..i + 1]);
            && order[i] in init.members
            && t == Marked(config, init, order[i], now, walls[i])
            && ChangedBy(config, s, now, order[..i + 1], walls[..i + 1])
               == ChangedBy(config, s, now, order[..i], walls[..i]) +
                 if Overdue(config, init, order[i], now) then [t.members[order[i]].member] else []
  {
    assert order[..i + 1][..i] == order[..i] && walls[..i + 1][..i] == walls[..i];
  }

  predicate MarkOf(config: Config, s: State, t: State, k: string, now: Time)
    requires k in s.members && k in t.members
  {
    var was, mark := s.members[k], t.members[k];
    && mark == was.(member := was.member.(status := NextStatus(config, was.member, now),
                                          version := mark.member.version))
    && mark.member.version.origin == config.selfId
    && (Before(s.last, mark.member.version) || Saturated(t.last))
  }

  lemma MarkMovesClock(config: Config, s: State, k: string, now: Time, wall: Int64)
    requires k in s.members
    ensures var t := Marked(config, s, k, now, wall);
            && (Saturated(s.last) ==> Saturated(t.last))
            && (!Saturated(s.last) ==> AtMost(s.last, t.last))
            && (!Saturated(s.last) ==> Before(s.last, Stamp(config, s, wall)))
  {
    NowIsLater(config.clockId, s.last, wall);
  }

  /** A pass leaves each member alone, or marks it once with a later version. */
  lemma {:induction false} TickedAt(config: Config, s: State, now: Time, order: seq<string>, walls: seq<Int64>,
                                    k: string)
    requires |order| == |walls| && NoRepeats(order) && k in s.members && forall o :: o in order ==> o in s.members
    ensures var t := Ticked(config, s, now, order, walls);
            && (Saturated(t.last) || (AtMost(s.last, t.last) && !Saturated(s.last)))
            && (k !in order || !Overdue(config, s, k, now) ==> t.members[k] == s.members[k])
            && (k in order && Overdue(config, s, k, now) ==> MarkOf(config, s, t, k, now))
  {
    if order != [] {
      var n := |order| - 1;
      var init := Ticked(config, s, now, order[..n], walls[..n]);
      TickedAt(config, s, now, order[..n], walls[..n], k);
      MarkMovesClock(config, init, order[n], now, walls[n]);
      if !Saturated(init.last) {
        VersionsTransitive(s.last, init.last, NowAfter(config.clockId, init.last, walls[n]));
        VersionsTransitive(s.last, init.last, Stamp(config, init, walls[n]));
      }
    }
  }

  lemma NobodyOverdue(config: Config, s: State, now: Time, order: seq<string>, walls: seq<Int64>)
    requires Visits(order, s.members) && |walls| == |order|
    ensures forall k :: !Overdue(config, Ticked(config, s, now, order, walls), k, now)
  {
    forall k | k in s.members
      ensures !Overdue(config, Ticked(config, s, now, order, walls), k, now)
    {
      TickedAt(config, s, now, order, walls, k);
    }
  }

  /** The hook is told of exactly the members that were overdue, with the records
      the pass left. */
  lemma {:induction false} ChangedAreTheOverdue(config: Config, s: State, now: Time, order: seq<string>,
                                                walls: seq<Int64>, m: Member)
    requires |order| == |walls| && NoRepeats(order) && forall o :: o in order ==> o in s.members
    ensures m in ChangedBy(config, s, now, order, walls) <==>
              exists k :: k in order && Overdue(config, s, k, now)
                  && Ticked(config, s, now, order, walls).members[k].member == m
  {
    if order != [] {
      var n := |order| - 1;
      var init, t := Ticked(config, s, now, order[..n], walls[..n]), Ticked(config, s, now, order, walls);
      ChangedAreTheOverdue(config, s, now, order[..n], walls[..n], m);
      TickedAt(config, s, now, order[..n], walls[..n], order[n]);
      assert Overdue(config, init, order[n], now) == Overdue(config, s, order[n], now);
      assert order == order[..n] + [order[n]];
      assert forall k :: k in order[..n] ==> k != order[n] && t.members[k] == init.members[k];
    }
  }

  // ---- The node itself ---------------------------------------------------

  /** An accusation whose answer does not fit in 64 bits. */
  predicate Overflows(config: Config, m: Member) { Admissible(m) && Accuses(config, m) && m.incarnation == MAX_UINT64 }

  predicate SelfAlive(config: Config, s: State) { config.selfId in s.members
                                                 && s.members[config.selfId].member.status.Alive? }

  /** The table outranks every accusation it has merged, and is alive at that rank,
      exactly unless the answer's incarnation wrapped around. */
  lemma AccusationIsAnswered(config: Config, s: State, m: Member, wall: Int64, at: Time)
    requires SelfAlive(config, s) && Admissible(m) && Accuses(config, m)
    ensures SelfAlive(config, Merged(config, s, m, wall, at))
    ensures Outranks(Merged(config, s, m, wall, at).members[config.selfId].member, m) <==> !Overflows(config, m)
  {}

  /** A merge moves nothing but the record it names, and that only upward. */
  lemma MergeRaisesRank(config: Config, s: State, m: Member, wall: Int64, at: Time, k: string)
    requires config.selfId in s.members
    ensures var t := Merged(config, s, m, wall, at);
            && (k != m.nodeId || !Accepts(config, s, m) ==> MemberAt(t, k) == MemberAt(s, k))
            && (Accepts(config, s, m) && !Overflows(config, m) ==>
                  RankAtMost(MemberAt(s, m.nodeId), MemberAt(t, m.nodeId))
                      && !SameRank(MemberAt(s, m.nodeId), MemberAt(t, m.nodeId)))
  {
    if m.nodeId in s.members {
      MembersAntisymmetric(m, s.members[m.nodeId].member);
    }
  }

  /** One step keeps the table's own record alive, and lowers its incarnation exactly
      when an accusation overflows. */
  lemma SelfStep(config: Config, s: State, op: TableOp)
    requires SelfAlive(config, s)
    ensures SelfAlive(config, Step(config, s, op))
    ensures var was, now := s.members[config.selfId].member, Step(config, s, op).members[config.selfId].member;
            && (was.incarnation != 0 ==> (now.incarnation < was.incarnation <==> op.Merge? && Overflows(config, op.m)))
            && ((op.Merge? && Overflows(config, op.m)) || RankAtMost(Some(was), Some(now)))
  {
    var self := s.members[config.selfId].member;
    MembersAntisymmetric(self, self);
    match op
    case Merge(m, wall, at) =>
      MergeRaisesRank(config, s, m, wall, at, config.selfId);
    case Touch(nodeId, latency, at) =>
    case Tick(now, order, walls) =>
      if |order| == |walls| && Visits(order, s.members) {
        TickedAt(config, s, now, order, walls, config.selfId);
      }
  }

  predicate NoOverflow(config: Config, ops: seq<TableOp>) {
    forall op :: op in ops && op.Merge? ==> !Overflows(config, op.m)
  }

  /** Over any run of merges, contacts and failure detection, a table that starts
      alive stays alive in its own eyes, and its own rank, hence its incarnation,
      only rises while no accusation overflows. */
  lemma {:induction false} SelfStaysAlive(config: Config, s: State, ops: seq<TableOp>, i: nat)
    requires SelfAlive(config, s) && i <= |ops|
    ensures SelfAlive(config, Run(config, s, ops))
    ensures SelfAlive(config, Run(config, s, ops[..i]))
    ensures NoOverflow(config, ops) ==> RankAtMost(MemberAt(Run(config, s, ops[..i]), config.selfId),
                                                   MemberAt(Run(config, s, ops), config.selfId))
  {
    if ops == [] {
      MembersAntisymmetric(s.members[config.selfId].member, s.members[config.selfId].member);
    } else {
      var n := |ops| - 1;
      var init := Run(config, s, ops[..n]);
      if i <= n {
        assert ops[..n][..i] == ops[..i];
        SelfStaysAlive(config, s, ops[..n], i);
        SelfStep(config, init, ops[n]);
        if NoOverflow(config, ops) {
          assert ops[n] in ops && NoOverflow(config, ops[..n]);
          RanksTransitive(MemberAt(Run(config, s, ops[..i]), config.selfId), MemberAt(init, config.selfId),
                          MemberAt(Run(config, s, ops), config.selfId));
        }
      } else {
        assert ops[..i] == ops;
        SelfStaysAlive(config, s, ops[..n], n);
        SelfStep(config, init, ops[n]);
        var self := Run(config, s, ops).members[config.selfId].member;
        MembersAntisymmetric(self, self);
      }
    }
  }

  // ---- Its peers ---------------------------------------------------------

  /** The records about a node that a run merges. */
  function Told(ops: seq<TableOp>, k: string): set<Member> {
    if ops == [] then {}
    else
      var op := ops[|ops| - 1];
      Told(ops[..|ops| - 1], k) + if op.Merge? && Admissible(op.m) && op.m.nodeId == k then {op.m} else {}
  }

  predicate Gossip(ops: seq<TableOp>) { forall op :: op in ops ==> !op.Tick? }

  ghost predicate UpperBound(some: set<Member>, first: Option<Member>, top: Option<Member>) {
    RankAtMost(first, top) && forall m :: m in some ==> RankAtMost(Some(m), top)
  }

  /** The rank of a peer after any run of merges and contacts is the largest of what
      was held and what was told. */
  lemma {:induction false} PeerRankIsMaximum(config: Config, s: State, ops: seq<TableOp>, k: string)
    requires config.selfId in s.members && k != config.selfId && Gossip(ops)
    ensures var top := MemberAt(Run(config, s, ops), k);
            && UpperBound(Told(ops, k), MemberAt(s, k), top)
            && (SameRank(top, MemberAt(s, k)) || exists m :: m in Told(ops, k) && SameRank(top, Some(m)))
  {
    var first, top := MemberAt(s, k), MemberAt(Run(config, s, ops), k);
    if ops == [] {
      if first.Some? {
        MembersAntisymmetric(first.value, first.value);
      }
    } else {
      var n := |ops| - 1;
      var init := Run(config, s, ops[..n]);
      PeerRankIsMaximum(config, s, ops[..n], k);
      GossipStep(config, init, ops[n], k);
      forall m | m in Told(ops[..n], k)
        ensures RankAtMost(Some(m), top)
      {
        RanksTransitive(Some(m), MemberAt(init, k), top);
      }
      RanksTransitive(first, MemberAt(init, k), top);
    }
  }

  lemma GossipStep(config: Config, s: State, op: TableOp, k: string)
    requires config.selfId in s.members && k != config.selfId && !op.Tick?
    ensures var t := Step(config, s, op);
            var told := op.Merge? && Admissible(op.m) && op.m.nodeId == k;
            && RankAtMost(MemberAt(s, k), MemberAt(t, k))
            && (told ==> RankAtMost(Some(op.m), MemberAt(t, k)))
            && (SameRank(MemberAt(t, k), MemberAt(s, k)) || (told && SameRank(MemberAt(t, k), Some(op.m))))
  {
    if k in s.members {
      MembersAntisymmetric(s.members[k].member, s.members[k].member);
    }
    if op.Merge? {
      MembersAntisymmetric(op.m, op.m);
      if k in s.members {
        MembersAntisymmetric(op.m, s.members[k].member);
      }
    }
  }

  /** Two tables that start at one rank for a peer and are told the same records, in
      any orders and numbers, end at one rank. */
  lemma MergeOrderIsIrrelevant(a: Config, b: Config, s: State, t: State, ops: seq<TableOp>, others: seq<TableOp>,
                               k: string)
    requires a.selfId in s.members && b.selfId in t.members && k != a.selfId && k != b.selfId
    requires Gossip(ops) && Gossip(others)
    requires Told(ops, k) == Told(others, k) && SameRank(MemberAt(s, k), MemberAt(t, k))
    ensures SameRank(MemberAt(Run(a, s, ops), k), MemberAt(Run(b, t, others), k))
  {
    PeerRankIsMaximum(a, s, ops, k);
    PeerRankIsMaximum(b, t, others, k);
    var one, two := MemberAt(Run(a, s, ops), k), MemberAt(Run(b, t, others), k);
    SameRankIsBelow(Told(ops, k), MemberAt(s, k), MemberAt(t, k), one, two);
    SameRankIsBelow(Told(ops, k), MemberAt(t, k), MemberAt(s, k), two, one);
    RanksAntisymmetric(one, two);
  }

  lemma SameRankIsBelow(some: set<Member>, first: Option<Member>, same: Option<Member>, top: Option<Member>,
                        bound: Option<Member>)
    requires SameRank(first, same) && UpperBound(some, same, bound)
    requires SameRank(top, first) || exists m :: m in some && SameRank(top, Some(m))
    ensures RankAtMost(top, bound)
  {}

  /** A refutation wins everywhere: a third table told the answer, and otherwise only
      things that rank no higher, such as the accusation itself, ends with the
      accused alive at the answer's rank, whatever the order. */
  lemma RefutationSpreads(accused: Config, s: State, accusation: Member, wall: Int64, at: Time,
                          third: Config, t: State, ops: seq<TableOp>)
    requires SelfAlive(accused, s) && Admissible(accusation) && Accuses(accused, accusation)
             && !Overflows(accused, accusation)
    requires third.selfId in t.members && third.selfId != accused.selfId && Gossip(ops)
    requires var answer := Merged(accused, s, accusation, wall, at).members[accused.selfId].member;
             && answer in Told(ops, accused.selfId)
             && RankAtMost(MemberAt(t, accused.selfId), Some(answer))
             && forall m :: m in Told(ops, accused.selfId) && m != accusation ==> RankAtMost(Some(m), Some(answer))
    ensures var answer := Merged(accused, s, accusation, wall, at).members[accused.selfId].member;
            var known := MemberAt(Run(third, t, ops), accused.selfId);
            SameRank(known, Some(answer)) && known.value.status.Alive?
  {
    var k, answer := accused.selfId, Merged(accused, s, accusation, wall, at).members[accused.selfId].member;
    AccusationIsAnswered(accused, s, accusation, wall, at);
    MembersAntisymmetric(answer, accusation);
    PeerRankIsMaximum(third, t, ops, k);
    var known := MemberAt(Run(third, t, ops), k);
    SameRankIsBelow(Told(ops, k), MemberAt(t, k), MemberAt(t, k), known, Some(answer));
    RanksAntisymmetric(known, Some(answer));
  }

  // ---- Failure marks -----------------------------------------------------

  /** A mark outranks the record it replaces exactly when the stamp is not before the
      record's version, which the table's clock never observed. Otherwise a copy of
      the old record, still gossiped by others, undoes the mark. */
  lemma MarkStandsWhenLater(config: Config, s: State, k: string, now: Time, wall: Int64, again: Int64, at: Time)
    requires config.selfId in s.members && Overdue(config, s, k, now)
    requires Admissible(s.members[k].member) && s.members[k].member.nodeId == k
    ensures var held, t := s.members[k].member, Marked(config, s, k, now, wall);
            && (Outranks(t.members[k].member, held) <==> AtMost(held.version, Stamp(config, s, wall)))
            && (Merged(config, t, held, again, at).members[k].member == held
                <==> Before(Stamp(config, s, wall), held.version))
  {
    VersionsAntisymmetric(s.members[k].member.version, Stamp(config, s, wall));
  }

  /** So a pass raises every rank it changes if the clock is at or past the versions
      held, and does not saturate. */
  lemma PassRaisesRanks(config: Config, s: State, now: Time, order: seq<string>, walls: seq<Int64>, k: string)
    requires Visits(order, s.members) && |walls| == |order| && Overdue(config, s, k, now)
    requires AtMost(s.members[k].member.version, s.last) && !Saturated(Ticked(config, s, now, order, walls).last)
    ensures Outranks(Ticked(config, s, now, order, walls).members[k].member, s.members[k].member)
  {
    TickedAt(config, s, now, order, walls, k);
    var held, mark := s.members[k].member, Ticked(config, s, now, order, walls).members[k].member;
    VersionsTransitive(held.version, s.last, mark.version);
    VersionsAntisymmetric(held.version, mark.version);
  }

  /** It does fail: the peer's clock runs ten seconds ahead, the peer falls silent,
      and the suspicion raised against it ranks below its last word. */
  lemma FastPeerShedsSuspicion()
    ensures var config := Config("a", "a", 5 * SECOND, 15 * SECOND);
            var self := Member("a", "boot-a", "", "", Alive, 1, 6 * SECOND, Version(1, 0, "a"));
            var peer := Member("b", "boot-b", "", "", Alive, 1, 0, Version(20_000, 0, "b"));
            var s := State(map["a" := PeerState(self, None, 0), "b" := PeerState(peer, None, 0)],
                           Version(10_000, 0, "a"));
            var t := Marked(config, s, "b", 6 * SECOND, 10_000);
            && SelfAlive(config, s) && Admissible(self) && Admissible(peer)
            && t.members["b"].member.status.Suspect? && Outranks(peer, t.members["b"].member)
            && Merged(config, t, peer, 10_001, 6 * SECOND).members["b"].member == peer
  {}

  /** An accusation at the largest incarnation: the answer wraps to 0 and loses. */
  lemma LargestAccusationWins()
    ensures var config := Config("a", "a", 5 * SECOND, 15 * SECOND);
            var self := Member("a", "boot-a", "", "", Alive, 1, 0, Version(1, 0, "a"));
            var s := State(map["a" := PeerState(self, None, 0)], Version(10_000, 0, "a"));
            var accusation := self.(status := Suspect, incarnation := MAX_UINT64, version := Version(2, 0, "b"));
            var answer := Merged(config, s, accusation, 10_000, 0).members["a"].member;
            answer.status.Alive? && answer.incarnation == 0 && !Admissible(answer) && Outranks(accusation, answer)
  {}

  // ---- What the table does, in fields and ages ---------------------------

  /** A later incarnation; else a newer version; else a worse status. */
  ghost predicate LowerMember(a: Member, b: Member) {
    || a.incarnation < b.incarnation
    || (a.incarnation == b.incarnation && Older(a.version, b.version))
    || (a.incarnation == b.incarnation && a.version == b.version && Milder(a.status, b.status))
  }

  predicate Milder(a: MemberStatus, b: MemberStatus) {
    || (a.Alive? && (b.Suspect? || b.Dead?))
    || (a.Suspect? && b.Dead?)
  }

  lemma MemberOrder(a: Member, b: Member)
    requires a.status.Known() && b.status.Known()
    ensures CompareMember(a, b) < 0 <==> LowerMember(a, b)
    ensures CompareMember(a, b) > 0 <==> LowerMember(b, a)
  {
    VersionOrder(a.version, b.version);
  }

  /** A record about another node is taken over whole exactly when it is higher than the
      one held; an ALIVE one also sets the last contact. */
  lemma MergeTakesHigher(config: Config, s: State, m: Member, wall: Int64, at: Time)
    requires config.selfId in s.members && Admissible(m) && m.nodeId != config.selfId
    requires m.nodeId in s.members ==> s.members[m.nodeId].member.status.Known()
    ensures var t := Merged(config, s, m, wall, at);
            if m.nodeId !in s.members || LowerMember(s.members[m.nodeId].member, m)
            then
              && m.nodeId in t.members && t.members[m.nodeId].member == m
              && (m.status.Alive? ==> t.members[m.nodeId].lastOk == Some(m.lastSeenAt))
              && (m.nodeId in s.members ==>
                    && t.members[m.nodeId].latency == s.members[m.nodeId].latency
                    && (!m.status.Alive? ==> t.members[m.nodeId].lastOk == s.members[m.nodeId].lastOk))
            else t == s
  {
    if m.nodeId in s.members {
      MemberOrder(m, s.members[m.nodeId].member);
    }
  }

  /** The answer to an accusation that is not out of date: alive, one incarnation above it,
      under the clock's next version, seen now. */
  lemma AnswerIsOneHigher(config: Config, s: State, m: Member, wall: Int64, at: Time)
    requires config.selfId in s.members && Admissible(m) && Accuses(config, m) && !Overflows(config, m)
    requires m.incarnation >= s.members[config.selfId].member.incarnation
    ensures var was, answer := s.members[config.selfId].member,
            Merged(config, s, m, wall, at).members[config.selfId].member;
            && answer == was.(status := Alive, incarnation := m.incarnation + 1, lastSeenAt := at,
                              version := NowAfter(config.clockId, s.last, wall))
  {}

  /** One pass, in ages: a member silent for `dead` is DEAD; an ALIVE one silent for
      `suspicion` and not for `dead` is SUSPECT; every other is left as it is. */
  lemma PassInAges(config: Config, s: State, now: Time, order: seq<string>, walls: seq<Int64>, k: string)
    requires Visits(order, s.members) && |walls| == |order| && k in s.members && k != config.selfId
    requires 0 < config.suspicion <= MAX_INT64 && 0 < config.dead <= MAX_INT64
    ensures var was, after := s.members[k], Ticked(config, s, now, order, walls).members[k];
            var age := now - was.member.lastSeenAt;
            && after.member.lastSeenAt == was.member.lastSeenAt && after.lastOk == was.lastOk
            && (if was.member.status.Dead? then after == was
                else if age >= config.dead then after.member.status.Dead?
                else if was.member.status.Alive? && age >= config.suspicion then after.member.status.Suspect?
                else after == was)
  {
    TickedAt(config, s, now, order, walls, k);
  }

  /** Nothing is merged about the node, nor is it heard from again. */
  predicate NothingAbout(ops: seq<TableOp>, k: string) {
    forall op :: op in ops ==> (op.Merge? ==> op.m.nodeId != k) && (op.Touch? ==> op.nodeId != k)
  }

  /** Every pass comes before either timeout has run from `at`. */
  predicate PassesBefore(config: Config, ops: seq<TableOp>, at: Time) {
    forall op :: op in ops && op.Tick? ==> op.now - at < config.suspicion && op.now - at < config.dead
  }

  lemma {:induction false} SilenceIsBorne(config: Config, s: State, ops: seq<TableOp>, k: string)
    requires config.selfId in s.members && k in s.members && k != config.selfId
    requires 0 < config.suspicion <= MAX_INT64 && 0 < config.dead <= MAX_INT64
    requires NothingAbout(ops, k) && PassesBefore(config, ops, s.members[k].member.lastSeenAt)
    ensures k in Run(config, s, ops).members && Run(config, s, ops).members[k] == s.members[k]
  {
    if ops != [] {
      var init, op := ops[..|ops| - 1], ops[|ops| - 1];
      assert op in ops && NothingAbout(init, k) && PassesBefore(config, init, s.members[k].member.lastSeenAt);
      SilenceIsBorne(config, s, init, k);
      var t := Run(config, s, init);
      if op.Tick? && |op.order| == |op.walls| && Visits(op.order, t.members) {
        PassInAges(config, t, op.now, op.order, op.walls, k);
      }
    }
  }

  /** A contact that claims no more than what is held of a suspect or dead peer, or claims
      nothing valid, leaves the table as it was: a higher version or incarnation brings the peer back. */
  lemma StaleContactChangesNothing(config: Config, s: State, member: Member, latency: int, wall: Int64, at: Time)
    requires config.selfId in s.members && member.nodeId != config.selfId
    requires var seen := member.(status := Alive, lastSeenAt := at);
             Admissible(seen) ==>
               && seen.nodeId in s.members && s.members[seen.nodeId].member.status.Known()
               && !s.members[seen.nodeId].member.status.Alive?
               && !LowerMember(s.members[seen.nodeId].member, seen)
    ensures Contacted(config, s, member, latency, wall, at) == s
  {
    var seen := member.(status := Alive, lastSeenAt := at);
    if Admissible(seen) {
      MergeTakesHigher(config, s, seen, wall, at);
    }
  }

  /** A contact at `at` with a peer that is alive to this table: seen and well at `at`, and
      left so by every pass before the smaller timeout has run from then, unless something
      about it is merged first. */
  lemma ContactHoldsOff(config: Config, s: State, member: Member, latency: int, wall: Int64, at: Time,
                        ops: seq<TableOp>)
    requires config.selfId in s.members && member.nodeId != config.selfId
    requires 0 < config.suspicion <= MAX_INT64 && 0 < config.dead <= MAX_INT64
    requires Admissible(member.(status := Alive, lastSeenAt := at))
    requires var t := Contacted(config, s, member, latency, wall, at);
             member.nodeId in t.members && t.members[member.nodeId].member.status.Alive?
    requires NothingAbout(ops, member.nodeId) && PassesBefore(config, ops, at)
    ensures var t := Run(config, Contacted(config, s, member, latency, wall, at), ops);
            && member.nodeId in t.members && t.members[member.nodeId].member.status.Alive?
            && t.members[member.nodeId].member.lastSeenAt == at && t.members[member.nodeId].lastOk == Some(at)
            && t.members[member.nodeId].latency == latency
  {
    var t := Contacted(config, s, member, latency, wall, at);
    assert t.members[member.nodeId].member.lastSeenAt == at;
    SilenceIsBorne(config, t, ops, member.nodeId);
  }
}
