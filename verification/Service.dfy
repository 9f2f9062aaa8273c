/** One node: registry, clock and wheel together (backend/internal/service). Local writes
    and remote merges run here from their read to their apply with nothing in between;
    applying with its scheduling, and the handling of the wheel's tasks, run with any
    other operations of the node at every gap, and are shown to be runs of NodeRun. */
module Service {
  import opened Ordering
  import opened Versions
  import opened Model
  import opened OperationWindow
  import opened Authority
  import opened Cells
  import opened Convergence
  import opened Operations
  import opened Clock
  import opened Wheel
  import opened Registry
  import opened Leases
  import opened NodeRun

  // ---- Local writes win --------------------------------------------------

  /** A registration under a new registration id is never stale: with a clock that
      covers the epochs held, it applies unless the generation counter wraps. */
  lemma RegisterIsNeverStale(encode: Encoding, s: Store, last: Version, nodeId: string, request: Request, ttl: int,
                             r: Reading)
    requires StoreOk(s) && EpochsCovered(s, last) && !Saturated(last)
    requires ValidIdentifier(nodeId, MAX_IDENTIFIER) && Own(nodeId, last)
    requires request.Valid() && r.Ok() && r.wall > 0 && ttl >= 0
    ensures var c := CellAt(s, request.RequestKey());
            var m := RegisterMutation(c, request, nodeId, NowAfter(nodeId, last, r.wall), ttl, r);
            ApplyMutation(encode, c, m, r.registry).1.Applied? <==> NextGeneration(c) != 0
  {
    var key := request.RequestKey();
    var c, epoch := CellAt(s, key), NowAfter(nodeId, last, r.wall);
    assert CellOk(c, key);
    NowIsLater(nodeId, last, r.wall);
    if CellClaim(c).Some? {
      VersionsTransitive(EpochOf(c), last, epoch);
    }
    RegisterApplies(encode, c, key, request, nodeId, epoch, ttl, r, r.registry);
  }

  /** A heartbeat on a held lease that is not explicitly terminated is applied, or
      is a remembered retry; never stale, never invalid. */
  lemma HeartbeatIsNeverStale(encode: Encoding, s: Store, last: Version, nodeId: string, key: Key, operationId: string,
                              ttl: int, r: Reading)
    requires StoreOk(s) && VersionsCovered(s, last) && !Saturated(last)
    requires ValidIdentifier(nodeId, MAX_IDENTIFIER) && Own(nodeId, last)
    requires key in s.entries && !s.entries[key].record.ExplicitlyTerminal()
    requires ValidOperationId(operationId) && r.Ok() && ttl >= 0
    ensures var m := HeartbeatMutation(s.entries[key].record, nodeId, NowAfter(nodeId, last, r.wall), operationId, ttl,
                                       r);
            var result := ApplyMutation(encode, CellAt(s, key), m, r.registry).1;
            if s.entries[key].window.Knows(operationId) then result.Duplicate? else result.Applied?
  {
    assert CellOk(CellAt(s, key), key);
    NowCoversSeen(nodeId, last, r.wall, s.entries[key].record.version);
    HeartbeatApplies(encode, CellAt(s, key), key, nodeId, NowAfter(nodeId, last, r.wall), operationId, ttl, r,
                     r.registry);
  }

  /** So is a deregistration of the held lease, terminated or not. */
  lemma DeregisterIsNeverStale(encode: Encoding, s: Store, last: Version, nodeId: string, key: Key,
                               operationId: string, demo: bool, r: Reading)
    requires StoreOk(s) && VersionsCovered(s, last) && !Saturated(last)
    requires ValidIdentifier(nodeId, MAX_IDENTIFIER) && Own(nodeId, last)
    requires key in s.entries && ValidOperationId(operationId) && r.Ok()
    ensures var m := DeregisterMutation(s.entries[key].record, nodeId, NowAfter(nodeId, last, r.wall), operationId,
                                        demo, r);
            var result := ApplyMutation(encode, CellAt(s, key), m, r.registry).1;
            if s.entries[key].window.Knows(operationId) then result.Duplicate? else result.Applied?
  {
    assert CellOk(CellAt(s, key), key);
    NowCoversSeen(nodeId, last, r.wall, s.entries[key].record.version);
    DeregisterApplies(encode, CellAt(s, key), key, nodeId, NowAfter(nodeId, last, r.wall), operationId, demo, r,
                      r.registry);
  }

  // ---- The service -------------------------------------------------------

  lemma DueByNow(due: seq<Task>, current: Time)
    requires forall t :: t in multiset(due) ==> t.deadline <= current
    ensures forall i :: 0 <= i < |due| ==> due[i].deadline <= current
  {
    forall i | 0 <= i < |due|
      ensures due[i].deadline <= current
    {
      assert due[i] in multiset(due);
    }
  }

  lemma AfterTickIs(cfg: Config, n: State, due: seq<Task>, after: Agenda)
    requires Ticked(Agenda(n.current, n.wheel), multiset(due), after, cfg.tick)
    ensures AfterTick(cfg, n, due) == after
  {
    forall t
      ensures (n.wheel - multiset(due))[t] == after.pending[t]
    {
      assert multiset(due)[t] == if t.deadline <= after.current then n.wheel[t] else 0;
    }
  }

  /** A tick of the wheel is a turn of the node. */
  lemma TickIsTurn(cfg: Config, n: State, due: seq<Task>, after: Agenda)
    requires n.job.Idle? && n.batch == []
    requires Ticked(Agenda(n.current, n.wheel), multiset(due), after, cfg.tick)
    ensures Do(cfg, n, Turn(due)) == n.(wheel := after.pending, current := after.current, recent := multiset{},
                                        batch := due)
  {
    DoTurn(cfg, n, due);
    AfterTickIs(cfg, n, due, after);
  }

  /** The two calls of one writer to the wheel, with others in between. */
  lemma DoAround(cfg: Config, n: State, x: Region, between: seq<Region>, y: Region)
    ensures DoAll(cfg, n, [x] + between + [y]) == Do(cfg, DoAll(cfg, Do(cfg, n, x), between), y)
    ensures AllTimely(cfg, n, [x] + between + [y])
            <==> Timely(n, x) && AllTimely(cfg, Do(cfg, n, x), between) && Timely(DoAll(cfg, Do(cfg, n, x), between), y)
  {
    DoOne(cfg, n, x);
    DoInTurn(cfg, n, [x], between);
    DoThen(cfg, n, [x] + between, y);
  }

  lemma DoAroundAfter(cfg: Config, n: State, before: seq<Region>, x: Region, between: seq<Region>, y: Region)
    ensures DoAll(cfg, n, before + ([x] + between + [y]))
            == Do(cfg, DoAll(cfg, Do(cfg, DoAll(cfg, n, before), x), between), y)
  {
    DoInTurn(cfg, n, before, [x] + between + [y]);
    DoAround(cfg, DoAll(cfg, n, before), x, between, y);
  }

  /** What an apply does to the registry and the wheel when nothing else happens. */
  lemma AtOnce(cfg: Config, n: State, m: Mutation, now: Time, r: ApplyResult, xs: seq<Region>)
    requires r == AnswerTo(cfg, n.store, m, now)
    requires xs == [Finish(m, now)] + SchedulingOf(r, cfg.ahead, [], [])
    ensures var after := DoAll(cfg, n, xs);
            && after.store == Step(cfg.encode, n.store, Deliver(m, now)) && after.last == n.last
            && after.wheel == n.wheel + TasksFor(r, cfg.ahead)
  {
    DoInTurn(cfg, n, [Finish(m, now)], SchedulingOf(r, cfg.ahead, [], []));
    DoOne(cfg, n, Finish(m, now));
    DoFinish(cfg, n, m, now);
    if r.Applied? && Leased(r.record) {
      var mark, expiry := DelayMark(r.record, cfg.ahead), ExpiryTask(r.record);
      assert SchedulingOf(r, cfg.ahead, [], []) == [Enqueue(mark)] + [] + [Enqueue(expiry)];
      TwoEnqueued(cfg, Finished(cfg, n, m, now), mark, expiry);
    }
  }

  /** What a writer does after the registry's apply: nothing, or, with others `between` and
      `amid`, the two calls to the wheel. */
  function SchedulingOf(r: ApplyResult, ahead: int, between: seq<Region>, amid: seq<Region>): seq<Region> {
    if r.Applied? then between + WheelCalls(r.record, ahead, amid) else []
  }

  function WheelCalls(record: Instance, ahead: int, amid: seq<Region>): seq<Region> {
    if Leased(record) then [Enqueue(DelayMark(record, ahead))] + amid + [Enqueue(ExpiryTask(record))] else []
  }

  lemma TwoEnqueued(cfg: Config, n: State, first: Task, second: Task)
    ensures var after := DoAll(cfg, n, [Enqueue(first)] + [] + [Enqueue(second)]);
            && after.store == n.store && after.last == n.last && after.wheel == n.wheel + multiset{first, second}
  {
    DoAround(cfg, n, Enqueue(first), [], Enqueue(second));
    assert DoAll(cfg, Do(cfg, n, Enqueue(first)), []) == Do(cfg, n, Enqueue(first));
    DoEnqueue(cfg, n, first);
    DoEnqueue(cfg, Enqueued(n, first), second);
    BothEnqueued(n, first, second);
  }

  lemma BothEnqueued(n: State, first: Task, second: Task)
    ensures var after := Enqueued(Enqueued(n, first), second);
            && after.store == n.store && after.last == n.last && after.wheel == n.wheel + multiset{first, second}
  {
    assert multiset{first} + multiset{second} == multiset{first, second};
  }

  lemma TakenBack(hands: multiset<Task>, first: Task, second: Task)
    ensures hands + multiset{first, second} - multiset{first} - multiset{second} == hands
  {
    assert multiset{first, second} == multiset{first} + multiset{second};
  }

  /** A writer that has scheduled what it applied owes nothing more. */
  lemma NothingOwed(cfg: Config, n: State, m: Mutation, now: Time)
    ensures var r := AnswerTo(cfg, n.store, m, now);
            DoAll(cfg, n, [Finish(m, now)] + SchedulingOf(r, cfg.ahead, [], [])).hands == n.hands
  {
    var r := AnswerTo(cfg, n.store, m, now);
    DoInTurn(cfg, n, [Finish(m, now)], SchedulingOf(r, cfg.ahead, [], []));
    DoOne(cfg, n, Finish(m, now));
    DoFinish(cfg, n, m, now);
    if r.Applied? && Leased(r.record) {
      var mark, expiry, owing := DelayMark(r.record, cfg.ahead), ExpiryTask(r.record), Finished(cfg, n, m, now);
      assert SchedulingOf(r, cfg.ahead, [], []) == [Enqueue(mark)] + [] + [Enqueue(expiry)];
      DoAround(cfg, owing, Enqueue(mark), [], Enqueue(expiry));
      assert DoAll(cfg, Do(cfg, owing, Enqueue(mark)), []) == Do(cfg, owing, Enqueue(mark));
      DoEnqueue(cfg, owing, mark);
      DoEnqueue(cfg, Enqueued(owing, mark), expiry);
      TakenBack(n.hands, mark, expiry);
    }
  }

  /** Leases applied and scheduled at once are scheduled. */
  lemma ScheduledAtOnce(encode: Encoding, s: Store, m: Mutation, now: Time, pool: multiset<Task>,
                        r: ApplyResult, t: Store, after: multiset<Task>, ahead: int)
    requires r == ApplyMutation(encode, CellAt(s, m.record.RecordKey()), m, now).1
    requires t == Step(encode, s, Deliver(m, now)) && after == pool + TasksFor(r, ahead)
    ensures AllScheduled(s, pool) ==> AllScheduled(t, after)
  {
    if AllScheduled(s, pool) {
      DeliveryKeepsScheduled(encode, s, m, now, pool, after);
    }
  }

  // ---- The handler's runs ------------------------------------------------

  /** A task taken and then worked on is a run from where it was taken. */
  lemma TaskInTurn(cfg: Config, n: State, r: Reading, more: seq<Region>)
    requires n.job.Idle? && n.batch != []
    ensures var served := Served(cfg, n.(batch := n.batch[1..]), n.batch[0], r);
            && DoAll(cfg, n, [Serve(r)] + more) == DoAll(cfg, served, more)
            && (AllTimely(cfg, n, [Serve(r)] + more) <==> Timely(n, Serve(r)) && AllTimely(cfg, served, more))
  {
    DoInTurn(cfg, n, [Serve(r)], more);
    DoOne(cfg, n, Serve(r));
    DoServe(cfg, n, r);
  }

  /** What is left of a task once it is served. */
  function RestOfTask(served: State, beforeDraw: seq<Region>, beforeApply: seq<Region>): seq<Region> {
    if served.job.Idle? then [] else beforeDraw + ([DrawExpiry] + beforeApply + [Evict])
  }

  lemma DrawAndEvict(cfg: Config, n: State)
    ensures var drawn := Do(cfg, n, DrawExpiry);
            drawn.batch == n.batch && drawn.current == n.current && (n.job.Found? ==> drawn.job.Drawn?)
    ensures var ended := Do(cfg, n, Evict);
            ended.batch == n.batch && ended.current == n.current && (n.job.Drawn? ==> ended.job.Idle?)
  {
    DoDrawExpiry(cfg, n);
    DoEvict(cfg, n);
  }

  /** It ends with the handler idle and nothing more taken. */
  lemma TaskEnds(cfg: Config, n: State, beforeDraw: seq<Region>, beforeApply: seq<Region>)
    requires !n.job.Drawn? && AllByOthers(beforeDraw) && AllByOthers(beforeApply)
    ensures var xs := RestOfTask(n, beforeDraw, beforeApply);
            && DoAll(cfg, n, xs).job.Idle? && DoAll(cfg, n, xs).batch == n.batch
               && DoAll(cfg, n, xs).current == n.current
            && AllTimely(cfg, n, xs)
  {
    if n.job.Found? {
      var found := DoAll(cfg, n, beforeDraw);
      var drawn := Do(cfg, found, DrawExpiry);
      OthersLeaveHandler(cfg, n, beforeDraw);
      DrawAndEvict(cfg, found);
      OthersLeaveHandler(cfg, drawn, beforeApply);
      DrawAndEvict(cfg, DoAll(cfg, drawn, beforeApply));
      DoInTurn(cfg, n, beforeDraw, [DrawExpiry] + beforeApply + [Evict]);
      DoAround(cfg, found, DrawExpiry, beforeApply, Evict);
    }
  }

  lemma RoundInTurn(cfg: Config, n: State, x: Region, more: seq<Region>, last: seq<Region>)
    ensures DoAll(cfg, n, [x] + (more + last)) == DoAll(cfg, DoAll(cfg, Do(cfg, n, x), more), last)
    ensures AllTimely(cfg, n, [x] + (more + last))
            <==> && Timely(n, x) && AllTimely(cfg, Do(cfg, n, x), more)
                 && AllTimely(cfg, DoAll(cfg, Do(cfg, n, x), more), last)
  {
    DoOne(cfg, n, x);
    DoInTurn(cfg, Do(cfg, n, x), more, last);
    DoInTurn(cfg, n, [x], more + last);
  }

  lemma ServedHands(cfg: Config, n: State, task: Task, r: Reading)
    requires n.job.Idle?
    ensures var served := Served(cfg, n, task, r);
            served.batch == n.batch && served.current == n.current && !served.job.Drawn?
  {}

  /** Where a region of a run comes from: the handler's readings, the others given, or the
      wheel itself. */
  ghost predicate From(x: Region, readings: nat -> Reading, others: nat -> seq<Region>) {
    && (x.Serve? ==> exists i :: x.r == readings(i))
    && (ByOthers(x) ==> exists i :: x in others(i))
  }

  ghost predicate AllFrom(xs: seq<Region>, readings: nat -> Reading, others: nat -> seq<Region>) {
    forall x :: x in xs ==> From(x, readings, others)
  }

  ghost predicate AllByOthersAlways(others: nat -> seq<Region>) { forall i :: AllByOthers(others(i)) }

  lemma TaskFrom(served: State, readings: nat -> Reading, others: nat -> seq<Region>, g: nat)
    requires AllByOthersAlways(others)
    ensures AllFrom(others(g) + ([Serve(readings(g))] + RestOfTask(served, others(g + 1), others(g + 2))), readings,
                    others)
  {
    var xs := others(g) + ([Serve(readings(g))] + RestOfTask(served, others(g + 1), others(g + 2)));
    forall x | x in xs
      ensures From(x, readings, others)
    {
      assert x in others(g) || x == Serve(readings(g)) || x in others(g + 1) || x in others(g + 2) || x.DrawExpiry?
             || x.Evict?;
      assert AllByOthers(others(g)) && AllByOthers(others(g + 1)) && AllByOthers(others(g + 2));
    }
  }

  /** What a tick, its tasks and the others after them make together. */
  lemma RoundEnds(cfg: Config, n: State, due: seq<Task>, more: seq<Region>, readings: nat -> Reading,
                  others: nat -> seq<Region>, g: nat)
    requires AllByOthersAlways(others) && AllFrom(more, readings, others)
    requires var turned := Do(cfg, n, Turn(due));
             AllTimely(cfg, turned, more) && DoAll(cfg, turned, more).job.Idle? && DoAll(cfg, turned, more).batch == []
    ensures AllByOthers(others(g))
    ensures var xs, served := [Turn(due)] + (more + others(g)), DoAll(cfg, Do(cfg, n, Turn(due)), more);
            && DoAll(cfg, n, xs) == DoAll(cfg, served, others(g))
            && DoAll(cfg, n, xs).job.Idle? && DoAll(cfg, n, xs).batch == []
            && AllTimely(cfg, n, xs) && AllFrom(xs, readings, others)
  {
    var served := DoAll(cfg, Do(cfg, n, Turn(due)), more);
    assert AllByOthers(others(g));
    OthersLeaveHandler(cfg, served, others(g));
    RoundInTurn(cfg, n, Turn(due), more, others(g));
    forall x | x in [Turn(due)] + (more + others(g))
      ensures From(x, readings, others)
    {
      assert x == Turn(due) || x in more || x in others(g);
    }
  }

  /** A run from such readings and others leaves alone every lease whose key the others
      never write and whose deadline is after every reading. */
  lemma LeftAlone(cfg: Config, n: State, xs: seq<Region>, readings: nat -> Reading, others: nat -> seq<Region>,
                  k: Key, lease: Instance)
    requires Holding(n, k, lease) && AllFrom(xs, readings, others)
    requires forall i :: readings(i).service < lease.leaseDeadline
    requires forall i, x :: x in others(i) ==> !WritesKey(x, k)
    ensures Holding(DoAll(cfg, n, xs), k, lease)
  {
    forall x | x in xs
      ensures !WritesKey(x, k) && (x.Serve? ==> x.r.service < lease.leaseDeadline)
    {
      assert From(x, readings, others);
    }
    LeftAloneUntilDue(cfg, n, xs, k, lease);
  }

  datatype Outcome =
    | NotFound
    | StaleLease
    | NotDemo
    | Invalid
    | AlreadyRegistered(held: Instance, heldEvent: string)
    | Done(result: ApplyResult)

  datatype RemoteOutcome = Rejected(why: Observation) | Merged(merge: ApplyResult)

  class Service {
    const registry: Registry
    const clock: Hlc
    const wheel: Wheel
    const nodeId: string
    const leaseTtl: int
    const delayedAfter: int
    const tombstoneTtl: int

    constructor (registry: Registry, clock: Hlc, wheel: Wheel, nodeId: string,
                 leaseTtl: int, delayedAfter: int, tombstoneTtl: int)
      ensures this.registry == registry && this.clock == clock && this.wheel == wheel && this.nodeId == nodeId
      ensures this.leaseTtl == if leaseTtl > 0 then leaseTtl else 30_000_000_000
      ensures this.delayedAfter == if delayedAfter > 0 then delayedAfter else this.leaseTtl / 2
      ensures this.tombstoneTtl == if tombstoneTtl > 0 then tombstoneTtl else 300_000_000_000
    {
      this.registry, this.clock, this.wheel, this.nodeId := registry, clock, wheel, nodeId;
      this.leaseTtl := if leaseTtl <= 0 then 30_000_000_000 else leaseTtl;
      this.delayedAfter := if delayedAfter <= 0 then (if leaseTtl <= 0 then 30_000_000_000 else leaseTtl) / 2
          else delayedAfter;
      this.tombstoneTtl := if tombstoneTtl <= 0 then 300_000_000_000 else tombstoneTtl;
    }

    ghost predicate Valid()
      reads registry, clock, wheel, wheel.slots
    {
      && registry.Valid() && wheel.Valid()
      && clock.nodeId == nodeId && ValidIdentifier(nodeId, MAX_IDENTIFIER) && Own(nodeId, clock.last)
      && leaseTtl > 0
    }

    function Contents(): Store
      reads registry
    {
      registry.Contents()
    }

    ghost function Pending(): multiset<Task>
      reads wheel, wheel.slots
    {
      wheel.View().pending
    }

    ghost predicate LeasesScheduled()
      reads registry, wheel, wheel.slots
    {
      AllScheduled(Contents(), Pending())
    }

    /** What of this node the state machine shows. */
    ghost predicate Shows(n: State)
      reads registry, clock, wheel, wheel.slots
    {
      n.store == Contents() && n.last == clock.last && n.wheel == Pending() && n.current == wheel.current
    }

    /** This node with its handler idle and no writer under way. */
    ghost function AtRest(): State
      reads registry, clock, wheel, wheel.slots
    {
      State(Contents(), clock.last, Pending(), wheel.current, multiset{}, [], Idle, multiset{})
    }

    function Setup(): Config {
      Config(registry.encode, nodeId, wheel.tick, leaseTtl - delayedAfter, tombstoneTtl, clock.skewMillis)
    }

    /** The clock is at or past every version stored. */
    ghost predicate Covered()
      reads registry, clock
    {
      VersionsCovered(Contents(), clock.last)
    }

    /** Another locked region of this node. */
    method Interfere(x: Region, ghost n: State)
      requires Valid() && Shows(n) && ByOthers(x)
      modifies registry, clock, wheel.slots
      ensures Valid() && wheel.current == old(wheel.current)
      ensures Shows(Do(Setup(), n, x))
      ensures x.Sweep? ==> Contents() == Step(registry.encode, old(Contents()), Gc(x.now, tombstoneTtl))
    {
      match x
      case Finish(m, now) =>
        DoFinish(Setup(), n, m, now);
        var result := registry.Apply(m, now);
      case Enqueue(task) =>
        DoEnqueue(Setup(), n, task);
        wheel.Schedule(task);
      case Draw(wall) =>
        DoDraw(Setup(), n, wall);
        StaysOwn(nodeId, clock.last, wall, clock.last);
        var version := clock.Now(wall);
      case Observe(remote, wall) =>
        DoObserve(Setup(), n, remote, wall);
        StaysOwn(nodeId, clock.last, wall, remote);
        var observation := clock.Observe(wall, remote);
      case TakeFence(f) =>
        DoTakeFence(Setup(), n, f);
        var accepted := registry.ApplyFence(f);
      case Sweep(now) =>
        DoSweep(Setup(), n, now);
        var removed := registry.GC(now, tombstoneTtl);
    }

    method InterfereAll(xs: seq<Region>, ghost n: State)
      requires Valid() && Shows(n) && AllByOthers(xs)
      modifies registry, clock, wheel.slots
      ensures Valid() && wheel.current == old(wheel.current)
      ensures Shows(DoAll(Setup(), n, xs))
    {
      for i := 0 to |xs|
        invariant Valid() && wheel.current == old(wheel.current)
        invariant Shows(DoAll(Setup(), n, xs[..i]))
      {
        DoThen(Setup(), n, xs[..i], xs[i]);
        assert xs[..i + 1] == xs[..i] + [xs[i]];
        Interfere(xs[i], DoAll(Setup(), n, xs[..i]));
      }
      assert xs[..|xs|] == xs;
    }

    /** A live record with a deadline goes to the wheel twice; the wheel's lock is free in
        between. */
    method Schedule(record: Instance, amid: seq<Region>, ghost n: State) returns (ghost xs: seq<Region>)
      requires Valid() && Shows(n) && AllByOthers(amid)
      modifies registry, clock, wheel.slots
      ensures Valid() && wheel.current == old(wheel.current) && Shows(DoAll(Setup(), n, xs))
      ensures xs == WheelCalls(record, Setup().ahead, amid) && Setup().ahead == leaseTtl - delayedAfter
    {
      xs := [];
      if record.Discoverable() && record.leaseDeadline != ZERO_TIME {
        var mark, expiry := DelayMark(record, Setup().ahead), ExpiryTask(record);
        Interfere(Enqueue(mark), n);
        InterfereAll(amid, Do(Setup(), n, Enqueue(mark)));
        Interfere(Enqueue(expiry), DoAll(Setup(), Do(Setup(), n, Enqueue(mark)), amid));
        DoAround(Setup(), n, Enqueue(mark), amid, Enqueue(expiry));
        xs := [Enqueue(mark)] + amid + [Enqueue(expiry)];
      }
    }

    /** The registry's apply, whose lock is released before the event is published and the
        wheel is told: anything may happen `between`, and again `amid` the two tasks. */
    method Apply(m: Mutation, now: Time, between: seq<Region>, amid: seq<Region>, ghost n: State)
      returns (r: ApplyResult, ghost xs: seq<Region>)
      requires Valid() && Shows(n) && AllByOthers(between) && AllByOthers(amid)
      modifies registry, clock, wheel.slots
      ensures Valid() && wheel.current == old(wheel.current)
      ensures r == AnswerTo(Setup(), n.store, m, now)
      ensures Shows(DoAll(Setup(), n, xs))
      ensures xs == [Finish(m, now)] + SchedulingOf(r, Setup().ahead, between, amid)
    {
      ghost var applied := Do(Setup(), n, Finish(m, now));
      r := ApplyToRegistry(m, now, n);
      DoOne(Setup(), n, Finish(m, now));
      xs := [];
      if r.Applied? {
        InterfereAll(between, applied);
        xs := Schedule(r.record, amid, DoAll(Setup(), applied, between));
        DoInTurn(Setup(), applied, between, xs);
        xs := between + xs;
      }
      DoInTurn(Setup(), n, [Finish(m, now)], xs);
      xs := [Finish(m, now)] + xs;
    }

    method ApplyToRegistry(m: Mutation, now: Time, ghost n: State) returns (r: ApplyResult)
      requires Valid() && Shows(n)
      modifies registry
      ensures Valid() && Shows(Do(Setup(), n, Finish(m, now)))
      ensures r == AnswerTo(Setup(), n.store, m, now)
    {
      DoFinish(Setup(), n, m, now);
      r := registry.Apply(m, now);
    }

    method ApplyAlone(m: Mutation, now: Time, ghost n: State) returns (r: ApplyResult)
      requires Valid() && Shows(n)
      modifies registry, clock, wheel.slots
      ensures Valid() && r == AnswerTo(Setup(), n.store, m, now)
      ensures Contents() == Step(Setup().encode, n.store, Deliver(m, now)) && clock.last == n.last
      ensures wheel.current == n.current && Pending() == n.wheel + TasksFor(r, Setup().ahead)
    {
      ghost var xs;
      r, xs := Apply(m, now, [], [], n);
      AtOnce(Setup(), n, m, now, r, xs);
    }

    /** With nothing in between. */
    method ApplyAtOnce(m: Mutation, now: Time) returns (r: ApplyResult)
      requires Valid()
      modifies registry, clock, wheel.slots
      ensures Valid() && clock.last == old(clock.last) && wheel.current == old(wheel.current)
      ensures Contents() == Step(registry.encode, old(Contents()), Deliver(m, now))
      ensures r == ApplyMutation(registry.encode, CellAt(old(Contents()), m.record.RecordKey()), m, now).1
      ensures Pending() == old(Pending()) + TasksFor(r, Setup().ahead)
      ensures old(LeasesScheduled()) ==> LeasesScheduled()
    {
      ghost var n := AtRest();
      r := ApplyAlone(m, now, n);
      ScheduledAtOnce(registry.encode, n.store, m, now, n.wheel, r, Contents(), Pending(), Setup().ahead);
    }

    /** A mutation from a peer: its version is observed before it is merged. */
    method ApplyRemote(m: Mutation, r: Reading) returns (outcome: RemoteOutcome)
      requires Valid()
      modifies registry, clock, wheel.slots
      ensures Valid()
      ensures outcome.Rejected? <==>
                !ValidVersion(m.record.version) || TooFarAhead(clock.skewMillis, r.wall, m.record.version)
      ensures ValidVersion(m.record.version) && r.wall + clock.skewMillis <= MAX_INT64 ==>
                (outcome.Merged? <==> m.record.version.physical - r.wall <= clock.skewMillis)
      ensures outcome.Rejected? ==> Contents() == old(Contents()) && clock.last == old(clock.last)
      ensures outcome.Merged? ==>
                && Contents() == Step(registry.encode, old(Contents()), Deliver(m, r.registry))
                && outcome.merge == ApplyMutation(registry.encode, CellAt(old(Contents()), m.record.RecordKey()), m,
                                                  r.registry).1
                && clock.last == ObserveAfter(nodeId, old(clock.last), r.wall, m.record.version)
      ensures wheel.current == old(wheel.current)
      ensures old(LeasesScheduled()) ==> LeasesScheduled()
      ensures old(VersionsCovered(Contents(), clock.last)) && !Saturated(m.record.version)
              ==> VersionsCovered(Contents(), clock.last)
      ensures old(EpochsCovered(Contents(), clock.last)) && !Saturated(m.record.version)
              && AtMost(m.record.leaseEpoch, m.record.version)
              ==> EpochsCovered(Contents(), clock.last)
    {
      var observation := clock.Observe(r.wall, m.record.version);
      if !observation.Observed? {
        return Rejected(observation);
      }
      ObserveIsLater(nodeId, old(clock.last), r.wall, m.record.version);
      var merge := ApplyAtOnce(m, r.registry);
      outcome := Merged(merge);
      assert AtMost(old(clock.last), clock.last);
      DeliveryKeepsCovered(registry.encode, old(Contents()), m, r.registry, old(clock.last), clock.last);
      if !Saturated(m.record.version) && AtMost(m.record.leaseEpoch, m.record.version) {
        VersionsTransitive(m.record.leaseEpoch, m.record.version, clock.last);
      }
    }

    /** A fence from anti-entropy goes to the registry without touching the clock. */
    method ReceiveFence(f: Fence) returns (accepted: bool)
      requires Valid()
      modifies registry
      ensures Valid()
      ensures Contents() == Step(registry.encode, old(Contents()), DeliverFence(f))
      ensures accepted <==> f.Valid() && !Below(Some(FenceRank(f)), AuthorityOf(old(Contents()), f.key))
      ensures old(LeasesScheduled()) ==> LeasesScheduled()
      ensures old(VersionsCovered(Contents(), clock.last)) ==> VersionsCovered(Contents(), clock.last)
      ensures old(EpochsCovered(Contents(), clock.last)) && AtMost(f.leaseEpoch, clock.last)
              ==> EpochsCovered(Contents(), clock.last)
    {
      FenceKeepsCovered(registry.encode, Contents(), f, clock.last, Pending());
      accepted := registry.ApplyFence(f);
    }

    /** The apply of a local write whose version the clock has drawn. */
    method Write(m: Mutation, now: Time, ghost before: Version) returns (r: ApplyResult)
      requires Valid() && AtMost(before, clock.last) && AtMost(m.record.version, clock.last)
      modifies registry, clock, wheel.slots
      ensures Valid() && wheel.current == old(wheel.current)
      ensures Contents() == Step(registry.encode, old(Contents()), Deliver(m, now))
      ensures r == ApplyMutation(registry.encode, CellAt(old(Contents()), m.record.RecordKey()), m, now).1
      ensures clock.last == old(clock.last)
      ensures old(LeasesScheduled()) ==> LeasesScheduled()
      ensures VersionsCovered(old(Contents()), before) ==> VersionsCovered(Contents(), clock.last)
      ensures EpochsCovered(old(Contents()), before) && AtMost(m.record.leaseEpoch, clock.last)
              ==> EpochsCovered(Contents(), clock.last)
    {
      r := ApplyAtOnce(m, now);
      DeliveryKeepsCovered(registry.encode, old(Contents()), m, now, before, clock.last);
    }

    /** A new registration is never stale: it applies whenever the clock covers what
        is known of the key, and it fails only when the generation counter wraps. */
    method Register(request: Request, r: Reading) returns (outcome: Outcome)
      requires Valid()
      modifies registry, clock, wheel.slots
      ensures Valid() && wheel.current == old(wheel.current)
      ensures var c := CellAt(old(Contents()), request.RequestKey());
              var known := c.entry.Some? && c.entry.value.record.registrationId == request.registrationId;
              && (known ==> outcome == AlreadyRegistered(c.entry.value.record, c.entry.value.eventId)
                            && Contents() == old(Contents()) && clock.last == old(clock.last))
              && (!known ==>
                    var epoch := NowAfter(nodeId, old(clock.last), r.wall);
                    var m := RegisterMutation(c, request, nodeId, epoch, leaseTtl / NANOS_PER_MILLI, r);
                    && clock.last == epoch
                    && Contents() == Step(registry.encode, old(Contents()), Deliver(m, r.registry))
                    && outcome == ReportOf(ApplyMutation(registry.encode, c, m, r.registry).1))
      ensures old(LeasesScheduled()) ==> LeasesScheduled()
      ensures old(VersionsCovered(Contents(), clock.last)) ==> VersionsCovered(Contents(), clock.last)
      ensures old(EpochsCovered(Contents(), clock.last)) ==> EpochsCovered(Contents(), clock.last)
    {
      var key := request.RequestKey();
      ghost var s, last := Contents(), clock.last;
      var c := CellAt(registry.Contents(), key);
      if c.entry.Some? && c.entry.value.record.registrationId == request.registrationId {
        return AlreadyRegistered(c.entry.value.record, c.entry.value.eventId);
      }
      NowIsLater(nodeId, clock.last, r.wall);
      var epoch := clock.Now(r.wall);
      var m := RegisterMutation(c, request, nodeId, epoch, leaseTtl / NANOS_PER_MILLI, r);
      var result := Write(m, r.registry, last);
      outcome := ReportOf(result);
    }

    /** The apply of a write that continues the held lease, answered to the client. */
    method Continue(key: Key, m: Mutation, now: Time, ghost before: Version) returns (outcome: Outcome)
      requires Valid() && AtMost(before, clock.last) && m.record.version == clock.last && m.record.RecordKey() == key
      requires key in Contents().entries && m.record.leaseEpoch == Contents().entries[key].record.leaseEpoch
      modifies registry, clock, wheel.slots
      ensures Valid() && wheel.current == old(wheel.current) && clock.last == old(clock.last)
      ensures Contents() == Step(registry.encode, old(Contents()), Deliver(m, now))
      ensures outcome == ReportOf(ApplyMutation(registry.encode, CellAt(old(Contents()), key), m, now).1)
      ensures old(LeasesScheduled()) ==> LeasesScheduled()
      ensures VersionsCovered(old(Contents()), before) ==> VersionsCovered(Contents(), clock.last)
      ensures EpochsCovered(old(Contents()), before) ==> EpochsCovered(Contents(), clock.last)
    {
      if EpochsCovered(Contents(), before) {
        VersionsTransitive(m.record.leaseEpoch, before, clock.last);
      }
      VersionsAntisymmetric(clock.last, clock.last);
      var result := Write(m, now, before);
      outcome := ReportOf(result);
    }

    /** A heartbeat on a held, non-terminated lease is applied or is a remembered
        retry; it is never stale. */
    method Heartbeat(key: Key, leaseId: string, operationId: string, r: Reading) returns (outcome: Outcome)
      requires Valid()
      modifies registry, clock, wheel.slots
      ensures Valid() && wheel.current == old(wheel.current)
      ensures var c := CellAt(old(Contents()), key);
              && (c.entry.None? ==> outcome == NotFound)
              && (c.entry.Some?
                  && (c.entry.value.record.leaseId != leaseId || c.entry.value.record.ExplicitlyTerminal())
                  ==> outcome == StaleLease)
              && (outcome == NotFound || outcome == StaleLease
                  ==> Contents() == old(Contents()) && clock.last == old(clock.last))
              && (outcome != NotFound && outcome != StaleLease ==>
                    var version := NowAfter(nodeId, old(clock.last), r.wall);
                    var m := HeartbeatMutation(c.entry.value.record, nodeId, version, operationId,
                                               leaseTtl / NANOS_PER_MILLI, r);
                    && clock.last == version
                    && Contents() == Step(registry.encode, old(Contents()), Deliver(m, r.registry))
                    && outcome == ReportOf(ApplyMutation(registry.encode, c, m, r.registry).1))
      ensures old(LeasesScheduled()) ==> LeasesScheduled()
      ensures old(VersionsCovered(Contents(), clock.last)) ==> VersionsCovered(Contents(), clock.last)
      ensures old(EpochsCovered(Contents(), clock.last)) ==> EpochsCovered(Contents(), clock.last)
    {
      ghost var s, last := Contents(), clock.last;
      var c := CellAt(registry.Contents(), key);
      if c.entry.None? {
        return NotFound;
      }
      var held := c.entry.value.record;
      if held.leaseId != leaseId || held.ExplicitlyTerminal() {
        return StaleLease;
      }
      assert CellOk(CellAt(s, key), key);
      NowIsLater(nodeId, clock.last, r.wall);
      var version := clock.Now(r.wall);
      outcome := Continue(key, HeartbeatMutation(held, nodeId, version, operationId, leaseTtl / NANOS_PER_MILLI, r),
                          r.registry, last);
    }

    /** A deregistration of the held lease is applied or is a remembered retry. */
    method Deregister(key: Key, leaseId: string, operationId: string, demo: bool, r: Reading) returns (outcome: Outcome)
      requires Valid()
      modifies registry, clock, wheel.slots
      ensures Valid() && wheel.current == old(wheel.current)
      ensures var c := CellAt(old(Contents()), key);
              && (c.entry.None? ==> outcome == NotFound)
              && (c.entry.Some? && c.entry.value.record.leaseId != leaseId ==> outcome == StaleLease)
              && (c.entry.Some? && c.entry.value.record.leaseId == leaseId && demo && !c.entry.value.record.demo
                  ==> outcome == NotDemo)
              && (outcome == NotFound || outcome == StaleLease || outcome == NotDemo
                  ==> Contents() == old(Contents()) && clock.last == old(clock.last))
              && (outcome != NotFound && outcome != StaleLease && outcome != NotDemo ==>
                    var version := NowAfter(nodeId, old(clock.last), r.wall);
                    var m := DeregisterMutation(c.entry.value.record, nodeId, version, operationId, demo, r);
                    && clock.last == version
                    && Contents() == Step(registry.encode, old(Contents()), Deliver(m, r.registry))
                    && outcome == ReportOf(ApplyMutation(registry.encode, c, m, r.registry).1))
      ensures old(LeasesScheduled()) ==> LeasesScheduled()
      ensures old(VersionsCovered(Contents(), clock.last)) ==> VersionsCovered(Contents(), clock.last)
      ensures old(EpochsCovered(Contents(), clock.last)) ==> EpochsCovered(Contents(), clock.last)
    {
      ghost var s, last := Contents(), clock.last;
      var c := CellAt(registry.Contents(), key);
      if c.entry.None? {
        return NotFound;
      }
      var held := c.entry.value.record;
      if held.leaseId != leaseId {
        return StaleLease;
      }
      if demo && !held.demo {
        return NotDemo;
      }
      assert CellOk(CellAt(s, key), key);
      NowIsLater(nodeId, clock.last, r.wall);
      var version := clock.Now(r.wall);
      outcome := Continue(key, DeregisterMutation(held, nodeId, version, operationId, demo, r), r.registry, last);
    }

    /** The read of the EXPIRE branch: the held record, if it is the task's own and due. */
    method ReadExpired(task: Task, version: Version, now: Time) returns (held: Option<Instance>)
      requires Valid()
      ensures held.Some? <==> ExpiryMatches(CellAt(Contents(), TaskKey(task)), task, version, now)
      ensures held.Some? ==> held.value == Contents().entries[TaskKey(task)].record
    {
      var key := TaskKey(task);
      if key !in registry.entries {
        return None;
      }
      var record := registry.entries[key].record;
      if record.leaseId != task.leaseId || record.version != version || !record.Discoverable()
         || record.leaseDeadline > now {
        return None;
      }
      held := Some(record);
    }

    /** The apply of the EXPIRE branch, for any record read before and any version drawn:
        an eviction has nothing to schedule. */
    method ApplyExpiry(held: Instance, version: Version, r: Reading, ghost before: Version)
      requires Valid()
      modifies registry, clock, wheel.slots
      ensures Valid() && clock.last == old(clock.last) && wheel.View() == old(wheel.View())
      ensures Contents() == Step(registry.encode, old(Contents()),
                                 Deliver(ExpireMutation(held, nodeId, version, r), r.registry))
      ensures AtMost(before, clock.last) && AtMost(version, clock.last) && VersionsCovered(old(Contents()), before)
              ==> VersionsCovered(Contents(), clock.last)
    {
      var m := ExpireMutation(held, nodeId, version, r);
      ExpiryIsNoLease(registry.encode, CellAt(Contents(), held.RecordKey()), held, nodeId, version, r);
      var result := ApplyAtOnce(m, r.registry);
      if AtMost(before, clock.last) {
        DeliveryKeepsCovered(registry.encode, old(Contents()), m, r.registry, before, clock.last);
      }
    }

    /** The clock reading of an expiry whose record is read. */
    method DrawForExpiry(r: Reading, ghost n: State) returns (version: Version)
      requires Valid() && Shows(n) && n.job.Found? && n.job.r == r
      modifies clock
      ensures Valid() && Shows(Do(Setup(), n, DrawExpiry))
      ensures Do(Setup(), n, DrawExpiry) == ExpiryDrawn(Setup(), n) && version == clock.last
    {
      DoDrawExpiry(Setup(), n);
      version := clock.Now(r.wall);
    }

    /** The apply of an expiry whose version is drawn. */
    method LandExpiry(held: Instance, version: Version, r: Reading, ghost n: State)
      requires Valid() && Shows(n) && n.job.Drawn? && n.job.held == held && n.job.version == version && n.job.r == r
      modifies registry, clock, wheel.slots
      ensures Valid() && wheel.current == old(wheel.current) && Shows(Do(Setup(), n, Evict))
    {
      DoEvict(Setup(), n);
      ApplyExpiry(held, version, r, clock.last);
    }

    /** The EXPIRE branch once its record is read: draw and apply, with others before each. */
    method EndLease(held: Instance, r: Reading, beforeDraw: seq<Region>, beforeApply: seq<Region>, ghost n: State)
      returns (ghost xs: seq<Region>)
      requires Valid() && Shows(n) && n.job.Found? && n.job.held == held && n.job.r == r
      requires AllByOthers(beforeDraw) && AllByOthers(beforeApply)
      modifies registry, clock, wheel.slots
      ensures Valid() && wheel.current == old(wheel.current)
      ensures Shows(DoAll(Setup(), n, xs))
      ensures xs == beforeDraw + ([DrawExpiry] + beforeApply + [Evict])
    {
      InterfereAll(beforeDraw, n);
      OthersLeaveHandler(Setup(), n, beforeDraw);
      ghost var found := DoAll(Setup(), n, beforeDraw);
      var version := DrawForExpiry(r, found);
      ghost var drawn := Do(Setup(), found, DrawExpiry);
      InterfereAll(beforeApply, drawn);
      OthersLeaveHandler(Setup(), drawn, beforeApply);
      LandExpiry(held, version, r, DoAll(Setup(), drawn, beforeApply));
      DoAroundAfter(Setup(), n, beforeDraw, DrawExpiry, beforeApply, Evict);
      xs := beforeDraw + ([DrawExpiry] + beforeApply + [Evict]);
    }

    /** The EXPIRE branch, for a task whose version parsed: read, draw and apply. */
    method ExpireLease(task: Task, version: Version, r: Reading, beforeDraw: seq<Region>, beforeApply: seq<Region>,
                       ghost n: State)
      returns (ghost xs: seq<Region>)
      requires Valid() && Shows(n) && n.job.Idle? && AllByOthers(beforeDraw) && AllByOthers(beforeApply)
      modifies registry, clock, wheel.slots
      ensures Valid() && wheel.current == old(wheel.current)
      ensures Shows(DoAll(Setup(), AfterRead(n, task, version, r), xs))
      ensures xs == RestOfTask(AfterRead(n, task, version, r), beforeDraw, beforeApply)
    {
      xs := [];
      var held := ReadExpired(task, version, r.service);
      if held.Some? {
        xs := EndLease(held.value, r, beforeDraw, beforeApply, AfterRead(n, task, version, r));
      }
    }

    /** handleTask: collection, a delay mark, or a conditional expiry. */
    method HandleTask(task: Task, r: Reading, beforeDraw: seq<Region>, beforeApply: seq<Region>, ghost n: State)
      returns (ghost xs: seq<Region>)
      requires Valid() && Shows(n) && n.job.Idle? && AllByOthers(beforeDraw) && AllByOthers(beforeApply)
      modifies registry, clock, wheel.slots
      ensures Valid() && wheel.current == old(wheel.current)
      ensures Shows(DoAll(Setup(), Served(Setup(), n, task, r), xs))
      ensures xs == RestOfTask(Served(Setup(), n, task, r), beforeDraw, beforeApply)
    {
      xs := [];
      if task.kind.CollectTask? {
        var removed := registry.GC(r.service, tombstoneTtl);
        return;
      }
      var parsed := ParseVersion(task.expectedVersion);
      if parsed.Some? {
        if task.kind.DelayTask? {
          var marked := registry.MarkDelayed(TaskKey(task), task.leaseId, parsed.value, r.service);
        } else {
          xs := ExpireLease(task, parsed.value, r, beforeDraw, beforeApply, n);
        }
      }
    }
    /** The next task of the batch, with others before it and inside it. */
    method HandleNext(task: Task, readings: nat -> Reading, others: nat -> seq<Region>, g: nat, ghost n: State)
      returns (ghost xs: seq<Region>)
      requires Valid() && Shows(n) && n.job.Idle? && n.batch != [] && n.batch[0] == task && AllByOthersAlways(others)
      requires readings(g).Ok() && task.deadline <= readings(g).service
      modifies registry, clock, wheel.slots
      ensures Valid() && wheel.current == old(wheel.current) && Shows(DoAll(Setup(), n, xs))
      ensures DoAll(Setup(), n, xs).job.Idle? && DoAll(Setup(), n, xs).batch == n.batch[1..]
      ensures AllTimely(Setup(), n, xs) && AllFrom(xs, readings, others)
    {
      assert AllByOthers(others(g)) && AllByOthers(others(g + 1)) && AllByOthers(others(g + 2));
      InterfereAll(others(g), n);
      OthersLeaveHandler(Setup(), n, others(g));
      ghost var m := DoAll(Setup(), n, others(g));
      ghost var rest := m.(batch := m.batch[1..]);
      ghost var served := Served(Setup(), rest, task, readings(g));
      ghost var more := HandleTask(task, readings(g), others(g + 1), others(g + 2), rest);
      ServedHands(Setup(), rest, task, readings(g));
      TaskEnds(Setup(), served, others(g + 1), others(g + 2));
      TaskInTurn(Setup(), m, readings(g), more);
      DoInTurn(Setup(), n, others(g), [Serve(readings(g))] + more);
      TaskFrom(served, readings, others, g);
      xs := others(g) + ([Serve(readings(g))] + more);
    }

    /** HandleTasks: the batch in order, from gap `g` on. */
    method HandleTasks(tasks: seq<Task>, readings: nat -> Reading, others: nat -> seq<Region>, g: nat, ghost n: State)
      returns (next: nat, ghost xs: seq<Region>)
      requires Valid() && Shows(n) && n.job.Idle? && n.batch == tasks && AllByOthersAlways(others)
      requires forall i, j :: 0 <= i < |tasks| ==> readings(j).Ok() && tasks[i].deadline <= readings(j).service
      modifies registry, clock, wheel.slots
      ensures Valid() && wheel.current == old(wheel.current) && Shows(DoAll(Setup(), n, xs))
      ensures DoAll(Setup(), n, xs).job.Idle? && DoAll(Setup(), n, xs).batch == []
      ensures AllTimely(Setup(), n, xs) && AllFrom(xs, readings, others)
    {
      next, xs := g, [];
      for i := 0 to |tasks|
        invariant Valid() && wheel.current == old(wheel.current) && Shows(DoAll(Setup(), n, xs))
        invariant DoAll(Setup(), n, xs).job.Idle? && DoAll(Setup(), n, xs).batch == tasks[i..]
        invariant AllTimely(Setup(), n, xs) && AllFrom(xs, readings, others)
      {
        ghost var more := HandleNext(tasks[i], readings, others, next, DoAll(Setup(), n, xs));
        DoInTurn(Setup(), n, xs, more);
        xs := xs + more;
        next := next + 3;
      }
    }

    /** The lock-held part of one round of the wheel. */
    method TickWheel(ghost n: State) returns (due: seq<Task>)
      requires Valid() && Shows(n) && n.job.Idle? && n.batch == []
      modifies wheel, wheel.slots
      ensures Valid() && wheel.current == old(wheel.current) + wheel.tick && Shows(Do(Setup(), n, Turn(due)))
      ensures Do(Setup(), n, Turn(due)).job.Idle? && Do(Setup(), n, Turn(due)).batch == due
      ensures forall i :: 0 <= i < |due| ==> due[i].deadline <= wheel.current
    {
      ghost var again;
      due, again := wheel.Tick();
      TickIsTurn(Setup(), n, due, wheel.View());
      assert forall t :: t in multiset(due) ==> multiset(due)[t] > 0;
      DueByNow(due, wheel.current);
    }

    /** One tick, the handling of what it took, and whatever comes before the next. */
    method Round(readings: nat -> Reading, others: nat -> seq<Region>, g: nat, ghost n: State)
      returns (handled: nat, next: nat, ghost xs: seq<Region>)
      requires Valid() && Shows(n) && n.job.Idle? && n.batch == [] && AllByOthersAlways(others)
      requires forall j :: readings(j).Ok() && wheel.current + wheel.tick <= readings(j).service
      modifies registry, clock, wheel, wheel.slots
      ensures Valid() && wheel.current == old(wheel.current) + wheel.tick && Shows(DoAll(Setup(), n, xs))
      ensures DoAll(Setup(), n, xs).job.Idle? && DoAll(Setup(), n, xs).batch == []
      ensures AllTimely(Setup(), n, xs) && AllFrom(xs, readings, others)
    {
      var due := TickWheel(n);
      ghost var turned := Do(Setup(), n, Turn(due));
      ghost var more;
      next, more := HandleTasks(due, readings, others, g + 1, turned);
      RoundEnds(Setup(), n, due, more, readings, others, g);
      InterfereAll(others(g), DoAll(Setup(), turned, more));
      handled, xs := |due|, [Turn(due)] + (more + others(g));
    }

    /** Advance with the service as its handler: whole ticks through `target`, with any
        other operations of the node at every gap, inside a task too. It is a run of the
        node, and ends with the handler idle, within one tick of the target. So with the
        service's clock at or past the target every live lease is ahead of the wheel, or
        its task was scheduled since the last tick or is in a writer's hands. */
    method Advance(target: Time, readings: nat -> Reading, others: nat -> seq<Region>, ghost n: State)
      returns (processed: nat, ghost xs: seq<Region>)
      requires Valid() && Shows(n) && n.job.Idle? && n.batch == [] && AllByOthersAlways(others)
      requires forall j :: readings(j).Ok() && target <= readings(j).service
      modifies registry, clock, wheel, wheel.slots
      ensures Valid() && Shows(DoAll(Setup(), n, xs))
      ensures DoAll(Setup(), n, xs).job.Idle? && DoAll(Setup(), n, xs).batch == []
      ensures AllTimely(Setup(), n, xs) && AllFrom(xs, readings, others)
      ensures target < wheel.current + wheel.tick
      ensures old(wheel.current) <= wheel.current && (wheel.current <= target || wheel.current == old(wheel.current))
      ensures Sound(Setup(), n) && Ahead(n) && AllVersioned(Setup(), n, xs) ==>
                && Sound(Setup(), DoAll(Setup(), n, xs)) && NothingForgotten(DoAll(Setup(), n, xs))
    {
      var g: nat := 0;
      processed, xs := 0, [];
      while wheel.current + wheel.tick <= target
        invariant Valid() && Shows(DoAll(Setup(), n, xs))
        invariant DoAll(Setup(), n, xs).job.Idle? && DoAll(Setup(), n, xs).batch == []
        invariant AllTimely(Setup(), n, xs) && AllFrom(xs, readings, others)
        invariant old(wheel.current) <= wheel.current
                  && (wheel.current <= target || wheel.current == old(wheel.current))
        decreases target - wheel.current
      {
        var handled: nat;
        ghost var more;
        handled, g, more := Round(readings, others, g, DoAll(Setup(), n, xs));
        DoInTurn(Setup(), n, xs, more);
        xs := xs + more;
        processed := processed + handled;
      }
      if Sound(Setup(), n) && Ahead(n) && AllVersioned(Setup(), n, xs) {
        EveryLeaseHasItsTask(Setup(), n, xs);
        RunForgetsNothing(Setup(), n, xs);
      }
    }
  }

  /** What the client is told: a mutation found invalid is an error. */
  function ReportOf(r: ApplyResult): (o: Outcome)
    ensures o.Invalid? <==> r.Invalid?
    ensures o.Done? ==> o.result == r
  {
    if r == ApplyResult.Invalid then Outcome.Invalid else Done(r)
  }
}
