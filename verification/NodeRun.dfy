/** One node as its locked regions, in any interleaving (backend/internal/service,
    backend/internal/ttl). Each region is a step: a writer's apply to the registry and,
    later, each of its two calls to the wheel; the clock; fences; collection; and the
    expiry handler, which takes a tick's tasks one by one and for an expiry reads, draws
    and applies apart. What every run keeps is where the task of each live lease is. */
module NodeRun {
  import opened Ordering
  import opened Versions
  import opened Model
  import opened OperationWindow
  import opened Authority
  import opened Cells
  import opened Convergence
  import opened Operations
  import opened Clock
  import opened Wheel
  import opened Leases
  import opened Races

  datatype Config = Config(encode: Encoding, nodeId: string, tick: int, ahead: int, retention: int, skewMillis: nat)
  {
    predicate Ok() { ValidIdentifier(nodeId, MAX_IDENTIFIER) && tick > 0 }
  }

  /** Where the expiry handler is: between tasks, or in an expiry whose record it has
      read, or whose version it has also drawn. */
  datatype Job =
    | Idle
    | Found(task: Task, held: Instance, r: Reading)
    | Drawn(task: Task, held: Instance, r: Reading, version: Version)

  /** `wheel` is what is pending at the wheel's time `current`, `recent` what was scheduled
      since its last tick, `batch` what the handler still has to take, and `hands` what
      writers have applied and not yet scheduled. */
  datatype State = State(store: Store, last: Version, wheel: multiset<Task>, current: Time, recent: multiset<Task>,
                         batch: seq<Task>, job: Job, hands: multiset<Task>)

  datatype Region =
    | Finish(m: Mutation, now: Time)
    | Enqueue(task: Task)
    | Draw(wall: Int64)
    | Observe(remote: Version, wall: Int64)
    | TakeFence(f: Fence)
    | Sweep(now: Time)
    | Turn(due: seq<Task>)
    | Serve(r: Reading)
    | DrawExpiry
    | Evict

  /** The regions of client calls, gossip and maintenance; the rest are the wheel's. */
  predicate ByOthers(x: Region) { !x.Turn? && !x.Serve? && !x.DrawExpiry? && !x.Evict? }

  // ---- Steps -------------------------------------------------------------

  function AnswerTo(cfg: Config, s: Store, m: Mutation, now: Time): ApplyResult {
    ApplyMutation(cfg.encode, CellAt(s, m.record.RecordKey()), m, now).1
  }

  /** The registry's part of an apply. What is to be scheduled is left to the writer. */
  function Finished(cfg: Config, n: State, m: Mutation, now: Time): State {
    n.(store := Step(cfg.encode, n.store, Deliver(m, now)),
       hands := n.hands + TasksFor(AnswerTo(cfg, n.store, m, now), cfg.ahead))
  }

  function Enqueued(n: State, task: Task): State {
    n.(wheel := n.wheel + multiset{task}, recent := n.recent + multiset{task}, hands := n.hands - multiset{task})
  }

  function Observed(cfg: Config, n: State, remote: Version, wall: Int64): State {
    if ValidVersion(remote) && !TooFarAhead(cfg.skewMillis, wall, remote) then
      n.(last := ObserveAfter(cfg.nodeId, n.last, wall, remote))
    else n
  }

  /** A tick of the wheel, once the handler is done with the one before: what is due is
      handed over, in some order. */
  ghost function Turned(cfg: Config, n: State, due: seq<Task>): State {
    if n.job.Idle? && n.batch == []
       && Ticked(Agenda(n.current, n.wheel), multiset(due), AfterTick(cfg, n, due), cfg.tick)
    then n.(wheel := n.wheel - multiset(due), current := n.current + cfg.tick, recent := multiset{}, batch := due)
    else n
  }

  function AfterTick(cfg: Config, n: State, due: seq<Task>): Agenda {
    Agenda(n.current + cfg.tick, n.wheel - multiset(due))
  }

  /** The first region of a task: collection, a delay mark, or the read of an expiry. */
  function Served(cfg: Config, n: State, task: Task, r: Reading): State {
    var parsed := ParseVersion(task.expectedVersion);
    if task.kind.CollectTask? then n.(store := Step(cfg.encode, n.store, Gc(r.service, cfg.retention)))
    else if parsed.None? then n
    else if task.kind.DelayTask? then
      n.(store := Step(cfg.encode, n.store, Delay(TaskKey(task), task.leaseId, parsed.value, r.service)))
    else AfterRead(n, task, parsed.value, r)
  }

  /** The read of an expiry whose version parsed. */
  function AfterRead(n: State, task: Task, version: Version, r: Reading): State {
    if ExpiryMatches(CellAt(n.store, TaskKey(task)), task, version, r.service) then
      n.(job := Found(task, n.store.entries[TaskKey(task)].record, r))
    else n
  }

  function TakeNext(cfg: Config, n: State, r: Reading): State {
    if n.job.Idle? && n.batch != [] then Served(cfg, n.(batch := n.batch[1..]), n.batch[0], r) else n
  }

  function ExpiryDrawn(cfg: Config, n: State): State {
    if n.job.Found? then
      var version := NowAfter(cfg.nodeId, n.last, n.job.r.wall);
      n.(last := version, job := Drawn(n.job.task, n.job.held, n.job.r, version))
    else n
  }

  /** The eviction a drawn job applies; it leaves nothing to schedule. */
  function Eviction(cfg: Config, job: Job): Mutation
    requires job.Drawn?
  {
    ExpireMutation(job.held, cfg.nodeId, job.version, job.r)
  }

  function Ended(cfg: Config, n: State): State {
    if n.job.Drawn? then
      n.(store := Step(cfg.encode, n.store, Deliver(Eviction(cfg, n.job), n.job.r.registry)), job := Idle)
    else n
  }

  ghost function Next(cfg: Config, n: State, x: Region): State {
    match x
    case Finish(m, now) => Finished(cfg, n, m, now)
    case Enqueue(task) => Enqueued(n, task)
    case Draw(wall) => n.(last := NowAfter(cfg.nodeId, n.last, wall))
    case Observe(remote, wall) => Observed(cfg, n, remote, wall)
    case TakeFence(f) => n.(store := Step(cfg.encode, n.store, DeliverFence(f)))
    case Sweep(now) => n.(store := Step(cfg.encode, n.store, Gc(now, cfg.retention)))
    case Turn(due) => Turned(cfg, n, due)
    case Serve(r) => TakeNext(cfg, n, r)
    case DrawExpiry => ExpiryDrawn(cfg, n)
    case Evict => Ended(cfg, n)
  }

  // `Do` is `Next`, kept folded: only `Doing` opens it.

  predicate Opened(n: State) { true }

  ghost predicate IsNext(cfg: Config, n: State, x: Region, after: State) {
    forall d {:trigger Opened(d)} :: d == after ==> d == Next(cfg, n, x)
  }

  ghost function Do(cfg: Config, n: State, x: Region): State {
    assert IsNext(cfg, n, x, Next(cfg, n, x));
    var after :| IsNext(cfg, n, x, after);
    after
  }

  lemma Doing(cfg: Config, n: State, x: Region)
    ensures Do(cfg, n, x) == Next(cfg, n, x)
  {
    assert Opened(Do(cfg, n, x));
  }

  // One region at a time.

  lemma DoFinish(cfg: Config, n: State, m: Mutation, now: Time)
    ensures Do(cfg, n, Finish(m, now)) == Finished(cfg, n, m, now)
  {
    Doing(cfg, n, Finish(m, now));
  }

  lemma DoEnqueue(cfg: Config, n: State, task: Task)
    ensures Do(cfg, n, Enqueue(task)) == Enqueued(n, task)
  {
    Doing(cfg, n, Enqueue(task));
  }

  lemma DoDraw(cfg: Config, n: State, wall: Int64)
    ensures Do(cfg, n, Draw(wall)) == n.(last := NowAfter(cfg.nodeId, n.last, wall))
  {
    Doing(cfg, n, Draw(wall));
  }

  lemma DoObserve(cfg: Config, n: State, remote: Version, wall: Int64)
    ensures Do(cfg, n, Observe(remote, wall)) == Observed(cfg, n, remote, wall)
  {
    Doing(cfg, n, Observe(remote, wall));
  }

  lemma DoTakeFence(cfg: Config, n: State, f: Fence)
    ensures Do(cfg, n, TakeFence(f)) == n.(store := Step(cfg.encode, n.store, DeliverFence(f)))
  {
    Doing(cfg, n, TakeFence(f));
  }

  lemma DoSweep(cfg: Config, n: State, now: Time)
    ensures Do(cfg, n, Sweep(now)) == n.(store := Step(cfg.encode, n.store, Gc(now, cfg.retention)))
  {
    Doing(cfg, n, Sweep(now));
  }

  lemma DoTurn(cfg: Config, n: State, due: seq<Task>)
    ensures Do(cfg, n, Turn(due)) == Turned(cfg, n, due)
  {
    Doing(cfg, n, Turn(due));
  }

  lemma DoServe(cfg: Config, n: State, r: Reading)
    ensures Do(cfg, n, Serve(r)) == TakeNext(cfg, n, r)
  {
    Doing(cfg, n, Serve(r));
  }

  lemma DoDrawExpiry(cfg: Config, n: State)
    ensures Do(cfg, n, DrawExpiry) == ExpiryDrawn(cfg, n)
  {
    Doing(cfg, n, DrawExpiry);
  }

  lemma DoEvict(cfg: Config, n: State)
    ensures Do(cfg, n, Evict) == Ended(cfg, n)
  {
    Doing(cfg, n, Evict);
  }

  ghost function DoAll(cfg: Config, n: State, xs: seq<Region>): State {
    if xs == [] then n else Do(cfg, DoAll(cfg, n, xs[..|xs| - 1]), xs[|xs| - 1])
  }

  /** The service's clock, when a task is taken, has reached the task's deadline. */
  predicate Timely(n: State, x: Region) {
    x.Serve? && n.job.Idle? && n.batch != [] ==> x.r.Ok() && n.batch[0].deadline <= x.r.service
  }

  ghost predicate AllTimely(cfg: Config, n: State, xs: seq<Region>) {
    xs == [] || (AllTimely(cfg, n, xs[..|xs| - 1]) && Timely(DoAll(cfg, n, xs[..|xs| - 1]), xs[|xs| - 1]))
  }

  /** What a writer applies carries a version the clock has drawn or observed. */
  predicate Versioned(n: State, x: Region) { x.Finish? ==> AtMost(x.m.record.version, n.last) }

  ghost predicate AllVersioned(cfg: Config, n: State, xs: seq<Region>) {
    xs == [] || (AllVersioned(cfg, n, xs[..|xs| - 1]) && Versioned(DoAll(cfg, n, xs[..|xs| - 1]), xs[|xs| - 1]))
  }

  lemma DoThen(cfg: Config, n: State, xs: seq<Region>, x: Region)
    ensures DoAll(cfg, n, xs + [x]) == Do(cfg, DoAll(cfg, n, xs), x)
    ensures AllTimely(cfg, n, xs + [x]) <==> AllTimely(cfg, n, xs) && Timely(DoAll(cfg, n, xs), x)
  {
    assert (xs + [x])[..|xs|] == xs;
  }

  lemma DoOne(cfg: Config, n: State, x: Region)
    ensures DoAll(cfg, n, [x]) == Do(cfg, n, x) && (AllTimely(cfg, n, [x]) <==> Timely(n, x))
  {
    assert [x][..0] == [];
  }

  lemma {:induction false} DoInTurn(cfg: Config, n: State, xs: seq<Region>, ys: seq<Region>)
    ensures DoAll(cfg, n, xs + ys) == DoAll(cfg, DoAll(cfg, n, xs), ys)
    ensures AllTimely(cfg, n, xs + ys) <==> AllTimely(cfg, n, xs) && AllTimely(cfg, DoAll(cfg, n, xs), ys)
  {
    if ys == [] {
      assert xs + ys == xs;
    } else {
      var init, y := ys[..|ys| - 1], ys[|ys| - 1];
      assert xs + ys == (xs + init) + [y];
      DoInTurn(cfg, n, xs, init);
      DoThen(cfg, n, xs + init, y);
    }
  }

  predicate AllByOthers(xs: seq<Region>) { forall x :: x in xs ==> ByOthers(x) }

  /** Others leave the handler and the wheel's time where they are, and are always timely. */
  lemma {:induction false} OthersLeaveHandler(cfg: Config, n: State, xs: seq<Region>)
    requires AllByOthers(xs)
    ensures var after := DoAll(cfg, n, xs); after.job == n.job && after.batch == n.batch && after.current == n.current
    ensures AllTimely(cfg, n, xs)
  {
    if xs != [] {
      assert xs[|xs| - 1] in xs && AllByOthers(xs[..|xs| - 1]);
      OthersLeaveHandler(cfg, n, xs[..|xs| - 1]);
      OneOther(cfg, DoAll(cfg, n, xs[..|xs| - 1]), xs[|xs| - 1]);
    }
  }

  lemma OneOther(cfg: Config, n: State, x: Region)
    requires ByOthers(x)
    ensures var after := Do(cfg, n, x); after.job == n.job && after.batch == n.batch && after.current == n.current
  {
    Doing(cfg, n, x);
  }

  // ---- What every run keeps ----------------------------------------------

  function Pool(n: State): multiset<Task> { n.wheel + multiset(n.batch) + n.hands }

  /** The handler has read this very lease and is about to end it. */
  predicate Ending(job: Job, record: Instance) {
    !job.Idle? && ExpiryTask(record) == job.task && record.leaseEpoch == job.held.leaseEpoch
  }

  /** Every live lease with a deadline has its expiry task on the wheel, with the handler,
      or in a writer's hands. */
  ghost predicate AllWait(n: State) {
    forall k :: k in n.store.entries && Leased(n.store.entries[k].record) ==>
      ExpiryTask(n.store.entries[k].record) in Pool(n) || Ending(n.job, n.store.entries[k].record)
  }

  predicate JobOk(job: Job, last: Version) {
    job.Idle? || (
      && job.held.WellFormed() && job.held.RecordKey() == TaskKey(job.task) && job.held.leaseId == job.task.leaseId
      && ParseVersion(job.task.expectedVersion) == Some(job.held.version)
      && job.r.Ok() && AtMost(job.held.version, last)
      && (job.Drawn? ==>
            ValidVersion(job.version) && AtMost(job.held.version, job.version) && AtMost(job.version, last)))
  }

  ghost predicate ClockOk(cfg: Config, n: State) {
    StoreOk(n.store) && Own(cfg.nodeId, n.last) && VersionsCovered(n.store, n.last) && JobOk(n.job, n.last)
  }

  ghost predicate Sound(cfg: Config, n: State) { ClockOk(cfg, n) && AllWait(n) }

  /** Nothing pending is due but what was scheduled since the last tick. */
  ghost predicate Ahead(n: State) {
    forall t :: t in n.wheel ==> t.deadline > n.current || t in n.recent
  }

  // ---- One step ----------------------------------------------------------

  /** No new lease, no task lost, and the handler where it was. */
  lemma StillWaiting(n: State, after: State)
    requires AllWait(n) && NoNewLeases(n.store, after.store)
    requires Pool(n) <= Pool(after) && after.job == n.job
    ensures AllWait(after)
  {}

  lemma OwnLeases(s: Store)
    ensures NoNewLeases(s, s)
  {}

  lemma ClockStaysOk(cfg: Config, n: State, later: Version)
    requires ClockOk(cfg, n) && AtMost(n.last, later) && Own(cfg.nodeId, later)
    ensures ClockOk(cfg, n.(last := later))
  {
    ClockMovesOn(n.store, n.last, later);
    if !n.job.Idle? {
      VersionsTransitive(n.job.held.version, n.last, later);
      if n.job.Drawn? {
        VersionsTransitive(n.job.version, n.last, later);
      }
    }
  }

  lemma ClockAdvances(cfg: Config, n: State, later: Version)
    requires Sound(cfg, n) && AtMost(n.last, later) && Own(cfg.nodeId, later)
    ensures Sound(cfg, n.(last := later))
  {
    ClockStaysOk(cfg, n, later);
    OwnLeases(n.store);
    StillWaiting(n, n.(last := later));
  }

  /** A delivered lease's task goes to its writer. */
  lemma FinishKeepsWaiting(cfg: Config, n: State, m: Mutation, now: Time, after: State)
    requires AllWait(n) && after.store == Step(cfg.encode, n.store, Deliver(m, now)) && after.job == n.job
    requires Pool(after) == Pool(n) + TasksFor(AnswerTo(cfg, n.store, m, now), cfg.ahead)
    ensures AllWait(after)
  {
    var key := m.record.RecordKey();
    DeliveryAnswers(cfg.encode, CellAt(n.store, key), m, now);
    forall k | k in after.store.entries && Leased(after.store.entries[k].record)
      ensures ExpiryTask(after.store.entries[k].record) in Pool(after)
              || Ending(after.job, after.store.entries[k].record)
    {
      StepIsPerKey(cfg.encode, n.store, Deliver(m, now), k);
      assert CellAt(after.store, k) == StepCell(cfg.encode, CellAt(n.store, k), k, Deliver(m, now));
    }
  }

  lemma FinishKeepsSound(cfg: Config, n: State, m: Mutation, now: Time)
    requires Sound(cfg, n) && AtMost(m.record.version, n.last)
    ensures Sound(cfg, Finished(cfg, n, m, now))
  {
    StepKeepsOk(cfg.encode, n.store, Deliver(m, now));
    VersionsAntisymmetric(n.last, n.last);
    DeliveryKeepsCovered(cfg.encode, n.store, m, now, n.last, n.last);
    FinishKeepsWaiting(cfg, n, m, now, Finished(cfg, n, m, now));
  }

  lemma EnqueueKeepsSound(cfg: Config, n: State, task: Task)
    requires Sound(cfg, n)
    ensures Sound(cfg, Enqueued(n, task))
  {
    OwnLeases(n.store);
    StillWaiting(n, Enqueued(n, task));
  }

  /** Fences, delay marks and collection. */
  lemma UpkeepKeepsSound(cfg: Config, n: State, op: Op)
    requires Sound(cfg, n) && !op.Deliver?
    ensures Sound(cfg, n.(store := Step(cfg.encode, n.store, op)))
  {
    StepKeepsOk(cfg.encode, n.store, op);
    UpkeepBringsNothing(cfg.encode, n.store, op);
    StillWaiting(n, n.(store := Step(cfg.encode, n.store, op)));
  }

  lemma TurnKeepsSound(cfg: Config, n: State, due: seq<Task>)
    requires Sound(cfg, n)
    ensures Sound(cfg, Turned(cfg, n, due))
  {
    var after := Turned(cfg, n, due);
    if after != n {
      assert n.wheel == after.wheel + multiset(due);
      OwnLeases(n.store);
      StillWaiting(n, after);
    }
  }

  /** The task taken is dropped only when no lease waits for it, or read to be ended. */
  lemma ServeKeepsSound(cfg: Config, n: State, r: Reading)
    requires Sound(cfg, n) && Timely(n, Serve(r))
    ensures Sound(cfg, TakeNext(cfg, n, r))
  {
    if n.job.Idle? && n.batch != [] {
      var task, rest := n.batch[0], n.(batch := n.batch[1..]);
      var after := Served(cfg, rest, task, r);
      assert n.batch == [task] + n.batch[1..];
      assert Pool(n) == multiset{task} + Pool(rest);
      ServedIsClockOk(cfg, rest, task, r);
      forall k | k in after.store.entries && Leased(after.store.entries[k].record)
        ensures ExpiryTask(after.store.entries[k].record) in Pool(after)
                || Ending(after.job, after.store.entries[k].record)
      {
        assert SameLease(after.store.entries[k].record, n.store.entries[k].record);
        if ExpiryTask(n.store.entries[k].record) == task {
          OwnTaskMatches(n.store, k, task, r.service);
        }
      }
    }
  }

  lemma ServedIsClockOk(cfg: Config, n: State, task: Task, r: Reading)
    requires ClockOk(cfg, n) && r.Ok() && n.job.Idle?
    ensures ClockOk(cfg, Served(cfg, n, task, r)) && NoNewLeases(n.store, Served(cfg, n, task, r).store)
  {
    var parsed := ParseVersion(task.expectedVersion);
    OwnLeases(n.store);
    assert CellOk(CellAt(n.store, TaskKey(task)), TaskKey(task));
    if task.kind.CollectTask? {
      StepKeepsOk(cfg.encode, n.store, Gc(r.service, cfg.retention));
      UpkeepBringsNothing(cfg.encode, n.store, Gc(r.service, cfg.retention));
    } else if parsed.Some? && task.kind.DelayTask? {
      StepKeepsOk(cfg.encode, n.store, Delay(TaskKey(task), task.leaseId, parsed.value, r.service));
      UpkeepBringsNothing(cfg.encode, n.store, Delay(TaskKey(task), task.leaseId, parsed.value, r.service));
    }
  }

  lemma DrawKeepsSound(cfg: Config, n: State)
    requires cfg.Ok() && Sound(cfg, n)
    ensures Sound(cfg, ExpiryDrawn(cfg, n))
  {
    if n.job.Found? {
      var version := NowAfter(cfg.nodeId, n.last, n.job.r.wall);
      NowIsLater(cfg.nodeId, n.last, n.job.r.wall);
      VersionsAntisymmetric(version, version);
      NowCoversSeen(cfg.nodeId, n.last, n.job.r.wall, n.job.held.version);
      ClockStaysOk(cfg, n, version);
    }
  }

  /** An expiry ends the lease it read if the key still holds it. */
  lemma ReadExpiryEnds(cfg: Config, c: Cell, key: Key, job: Job, last: Version)
    requires cfg.Ok() && CellOk(c, key) && c.Discoverable() && JobOk(job, last) && job.Drawn?
             && TaskKey(job.task) == key
    requires Ending(job, c.entry.value.record)
    ensures !ApplyMutation(cfg.encode, c, Eviction(cfg, job), job.r.registry).0.Discoverable()
  {
    ReadExpiryIsValid(job.held, cfg.nodeId, job.version, job.r);
    VersionRoundTrip(c.entry.value.record.version);
    ExpiryEndsExactly(cfg.encode, c, key, Eviction(cfg, job), job.r.registry);
  }

  /** Landing an expiry, whatever fell between its read, its draw and now, leaves no lease
      without a task: what waited for the task it drops is ended. */
  lemma LandingKeepsScheduled(cfg: Config, n: State)
    requires cfg.Ok() && Sound(cfg, n) && n.job.Drawn?
    ensures Sound(cfg, Ended(cfg, n))
  {
    var after, key, m, now := Ended(cfg, n), TaskKey(n.job.task), Eviction(cfg, n.job), n.job.r.registry;
    StepKeepsOk(cfg.encode, n.store, Deliver(m, now));
    VersionsAntisymmetric(n.last, n.last);
    DeliveryKeepsCovered(cfg.encode, n.store, m, now, n.last, n.last);
    DeliveryAnswers(cfg.encode, CellAt(n.store, key), m, now);
    ExpiryIsNoLease(cfg.encode, CellAt(n.store, key), n.job.held, cfg.nodeId, n.job.version, n.job.r);
    assert CellOk(CellAt(n.store, key), key);
    forall k | k in after.store.entries && Leased(after.store.entries[k].record)
      ensures ExpiryTask(after.store.entries[k].record) in Pool(after)
              || Ending(after.job, after.store.entries[k].record)
    {
      StepIsPerKey(cfg.encode, n.store, Deliver(m, now), k);
      assert CellAt(after.store, k) == StepCell(cfg.encode, CellAt(n.store, k), k, Deliver(m, now));
      assert CellOk(CellAt(n.store, k), k);
      assert after.store.entries[k].record == n.store.entries[k].record;
      if Ending(n.job, n.store.entries[k].record) {
        ReadExpiryEnds(cfg, CellAt(n.store, k), k, n.job, n.last);
      }
    }
  }

  /** Every region keeps a node sound. */
  lemma DoKeepsSound(cfg: Config, n: State, x: Region)
    requires cfg.Ok() && Sound(cfg, n) && Timely(n, x) && Versioned(n, x)
    ensures Sound(cfg, Do(cfg, n, x))
  {
    match x
    case Finish(m, now) => DoFinish(cfg, n, m, now); FinishKeepsSound(cfg, n, m, now);
    case Enqueue(task) => DoEnqueue(cfg, n, task); EnqueueKeepsSound(cfg, n, task);
    case Draw(wall) =>
      DoDraw(cfg, n, wall);
      NowIsLater(cfg.nodeId, n.last, wall);
      ClockAdvances(cfg, n, NowAfter(cfg.nodeId, n.last, wall));
    case Observe(remote, wall) =>
      DoObserve(cfg, n, remote, wall);
      ObserveIsLater(cfg.nodeId, n.last, wall, remote);
      if ValidVersion(remote) && !TooFarAhead(cfg.skewMillis, wall, remote) {
        ClockAdvances(cfg, n, ObserveAfter(cfg.nodeId, n.last, wall, remote));
      }
    case TakeFence(f) => DoTakeFence(cfg, n, f); UpkeepKeepsSound(cfg, n, DeliverFence(f));
    case Sweep(now) => DoSweep(cfg, n, now); UpkeepKeepsSound(cfg, n, Gc(now, cfg.retention));
    case Turn(due) => DoTurn(cfg, n, due); TurnKeepsSound(cfg, n, due);
    case Serve(r) => DoServe(cfg, n, r); ServeKeepsSound(cfg, n, r);
    case DrawExpiry => DoDrawExpiry(cfg, n); DrawKeepsSound(cfg, n);
    case Evict => DoEvict(cfg, n); if n.job.Drawn? { LandingKeepsScheduled(cfg, n); }
  }

  // ---- Every run ---------------------------------------------------------

  /** A node before anything happened. */
  function NewNode(current: Time): State {
    State(EMPTY_STORE, ZERO_VERSION, multiset{}, current, multiset{}, [], Idle, multiset{})
  }

  lemma NewNodeIsSound(cfg: Config, current: Time)
    ensures Sound(cfg, NewNode(current)) && Ahead(NewNode(current))
  {}

  /** In every run, whatever the interleaving, every live lease with a deadline has its
      expiry task on the wheel, with the handler, or in a writer's hands. */
  lemma {:induction false} EveryLeaseHasItsTask(cfg: Config, n: State, xs: seq<Region>)
    requires cfg.Ok() && Sound(cfg, n) && AllTimely(cfg, n, xs) && AllVersioned(cfg, n, xs)
    ensures Sound(cfg, DoAll(cfg, n, xs))
  {
    if xs != [] {
      EveryLeaseHasItsTask(cfg, n, xs[..|xs| - 1]);
      DoKeepsSound(cfg, DoAll(cfg, n, xs[..|xs| - 1]), xs[|xs| - 1]);
    }
  }

  // ---- What may be overdue -----------------------------------------------

  lemma ServedLeavesWheel(cfg: Config, n: State, task: Task, r: Reading)
    ensures var after := Served(cfg, n, task, r);
            after.current == n.current && after.recent == n.recent && after.wheel == n.wheel && after.batch == n.batch
  {}

  /** Only scheduling and ticks touch the wheel, only ticks and the taking of a task the
      handler's batch, which the latter shortens. */
  lemma WheelAfter(cfg: Config, n: State, x: Region)
    requires !x.Turn?
    ensures var after := Do(cfg, n, x);
            && after.current == n.current && after.recent == n.recent + Added(x) && after.wheel == n.wheel + Added(x)
            && (after.batch == n.batch || (x.Serve? && n.batch != [] && after.batch == n.batch[1..]))
  {
    Doing(cfg, n, x);
    if x.Serve? && n.job.Idle? && n.batch != [] {
      ServedLeavesWheel(cfg, n.(batch := n.batch[1..]), n.batch[0], x.r);
      assert Do(cfg, n, x) == Served(cfg, n.(batch := n.batch[1..]), n.batch[0], x.r);
    }
  }

  function Added(x: Region): multiset<Task> { if x.Enqueue? then multiset{x.task} else multiset{} }

  lemma TurnTakesDue(cfg: Config, n: State, due: seq<Task>)
    ensures var after := Turned(cfg, n, due);
            || after == n
            || (&& (forall t :: t in after.wheel ==> t in n.wheel && t.deadline > after.current)
                && (forall t :: t in after.batch ==> t in n.wheel))
  {
    var after := Turned(cfg, n, due);
    if after != n {
      forall t
        ensures t in after.wheel ==> t in n.wheel && t.deadline > after.current
        ensures t in after.batch ==> t in n.wheel
      {
        assert after.wheel[t] == if t.deadline <= after.current then 0 else n.wheel[t];
        assert multiset(due)[t] == if t.deadline <= after.current then n.wheel[t] else 0;
      }
    }
  }

  lemma DoKeepsAhead(cfg: Config, n: State, x: Region)
    requires Ahead(n)
    ensures Ahead(Do(cfg, n, x))
  {
    if x.Turn? {
      DoTurn(cfg, n, x.due);
      TurnTakesDue(cfg, n, x.due);
    } else {
      WheelAfter(cfg, n, x);
    }
  }

  /** What the handler has not finished with. */
  predicate WithHandler(n: State, record: Instance) { ExpiryTask(record) in n.batch || Ending(n.job, record) }

  /** Every live lease is ahead of the wheel's time, or its task is with the handler, was
      scheduled since the last tick, or is still in a writer's hands. */
  ghost predicate NothingForgotten(n: State) {
    forall k :: k in n.store.entries && Leased(n.store.entries[k].record) ==>
      || n.store.entries[k].record.leaseDeadline > n.current
      || WithHandler(n, n.store.entries[k].record)
      || ExpiryTask(n.store.entries[k].record) in n.recent + n.hands
  }

  lemma NothingIsForgotten(cfg: Config, n: State)
    requires Sound(cfg, n) && Ahead(n)
    ensures NothingForgotten(n)
  {
    forall k | k in n.store.entries && Leased(n.store.entries[k].record)
      ensures || n.store.entries[k].record.leaseDeadline > n.current
              || WithHandler(n, n.store.entries[k].record)
              || ExpiryTask(n.store.entries[k].record) in n.recent + n.hands
    {
      assert ExpiryTask(n.store.entries[k].record).deadline == n.store.entries[k].record.leaseDeadline;
    }
  }

  /** In every run, at every moment. */
  lemma {:induction false} RunForgetsNothing(cfg: Config, n: State, xs: seq<Region>)
    requires cfg.Ok() && Sound(cfg, n) && Ahead(n) && AllTimely(cfg, n, xs) && AllVersioned(cfg, n, xs)
    ensures Ahead(DoAll(cfg, n, xs)) && NothingForgotten(DoAll(cfg, n, xs))
  {
    EveryLeaseHasItsTask(cfg, n, xs);
    if xs != [] {
      RunForgetsNothing(cfg, n, xs[..|xs| - 1]);
      DoKeepsAhead(cfg, DoAll(cfg, n, xs[..|xs| - 1]), xs[|xs| - 1]);
    }
    NothingIsForgotten(cfg, DoAll(cfg, n, xs));
  }

  // ---- What is left alone ------------------------------------------------

  predicate WritesKey(x: Region, k: Key) {
    (x.Finish? && x.m.record.RecordKey() == k) || (x.TakeFence? && x.f.key == k)
  }

  /** An expiry task for this lease under this version. */
  predicate Fits(t: Task, k: Key, lease: Instance) {
    && t.kind.ExpireTask? && TaskKey(t) == k && t.leaseId == lease.leaseId
    && ParseVersion(t.expectedVersion) == Some(lease.version)
  }

  /** The key holds the lease, at most marked delayed, and the handler is not at the key. */
  ghost predicate Holding(n: State, k: Key, lease: Instance) {
    && StoreOk(n.store) && (!n.job.Idle? ==> n.job.held.RecordKey() != k)
    && k in n.store.entries && Leased(n.store.entries[k].record)
       && Unmarked(n.store.entries[k].record) == Unmarked(lease)
  }

  /** The task taken, if any, is not this lease's own and due. */
  predicate Misses(n: State, x: Region, k: Key, lease: Instance) {
    x.Serve? && n.job.Idle? && n.batch != [] ==> !Fits(n.batch[0], k, lease) || x.r.service < lease.leaseDeadline
  }

  lemma QuietOpKeepsLease(encode: Encoding, s: Store, op: Op, k: Key)
    requires (op.Deliver? ==> op.m.record.RecordKey() != k) && (op.DeliverFence? ==> op.f.key != k)
    requires k in s.entries && Leased(s.entries[k].record)
    ensures var t := Step(encode, s, op);
            k in t.entries && Leased(t.entries[k].record)
                && Unmarked(t.entries[k].record) == Unmarked(s.entries[k].record)
  {
    StepIsPerKey(encode, s, op, k);
    assert CellAt(Step(encode, s, op), k) == StepCell(encode, CellAt(s, k), k, op);
  }

  /** The registry operation of a region, if it performs one. */
  ghost function OpIn(cfg: Config, n: State, x: Region): Option<Op> {
    match x
    case Finish(m, now) => Some(Deliver(m, now))
    case TakeFence(f) => Some(DeliverFence(f))
    case Sweep(now) => Some(Gc(now, cfg.retention))
    case Serve(r) => if n.job.Idle? && n.batch != [] then OpOfTask(cfg, n.batch[0], r) else None
    case Evict => if n.job.Drawn? then Some(Deliver(Eviction(cfg, n.job), n.job.r.registry)) else None
    case _ => None
  }

  function OpOfTask(cfg: Config, task: Task, r: Reading): Option<Op> {
    var parsed := ParseVersion(task.expectedVersion);
    if task.kind.CollectTask? then Some(Gc(r.service, cfg.retention))
    else if task.kind.DelayTask? && parsed.Some? then Some(Delay(TaskKey(task), task.leaseId, parsed.value, r.service))
    else None
  }

  /** A region changes the registry by that operation or not at all. */
  lemma StoreAfter(cfg: Config, n: State, x: Region)
    ensures Do(cfg, n, x).store == if OpIn(cfg, n, x).Some? then Step(cfg.encode, n.store, OpIn(cfg, n, x).value)
            else n.store
    ensures !Do(cfg, n, x).job.Idle? && n.job.Idle? ==>
              && x.Serve? && n.batch != [] && Fits(n.batch[0], TaskKey(n.batch[0]), Do(cfg, n, x).job.held)
              && TaskKey(n.batch[0]) in n.store.entries && Do(cfg, n, x).job.held
                 == n.store.entries[TaskKey(n.batch[0])].record
              && Do(cfg, n, x).job.held.leaseDeadline <= x.r.service
    ensures !Do(cfg, n, x).job.Idle? && !n.job.Idle? ==> Do(cfg, n, x).job.held == n.job.held
  {
    Doing(cfg, n, x);
  }

  lemma StillHolding(cfg: Config, n: State, x: Region, k: Key, lease: Instance)
    requires Holding(n, k, lease) && !WritesKey(x, k) && Misses(n, x, k, lease)
    ensures Holding(Do(cfg, n, x), k, lease)
  {
    var op := OpIn(cfg, n, x);
    StoreAfter(cfg, n, x);
    if op.Some? {
      StepKeepsOk(cfg.encode, n.store, op.value);
      QuietOpKeepsLease(cfg.encode, n.store, op.value, k);
    }
    if x.Serve? && n.batch != [] && TaskKey(n.batch[0]) in n.store.entries {
      assert CellOk(CellAt(n.store, TaskKey(n.batch[0])), TaskKey(n.batch[0]));
    }
  }

  /** A lease whose key no one writes is still held, unchanged, after any run in which
      the service's clock never reaches its deadline: no lease left alone ends early. */
  lemma {:induction false} LeftAloneUntilDue(cfg: Config, n: State, xs: seq<Region>, k: Key, lease: Instance)
    requires Holding(n, k, lease)
    requires forall x :: x in xs ==> !WritesKey(x, k) && (x.Serve? ==> x.r.service < lease.leaseDeadline)
    ensures Holding(DoAll(cfg, n, xs), k, lease)
  {
    if xs != [] {
      LeftAloneUntilDue(cfg, n, xs[..|xs| - 1], k, lease);
      StillHolding(cfg, DoAll(cfg, n, xs[..|xs| - 1]), xs[|xs| - 1], k, lease);
    }
  }

  // ---- What is never scheduled -------------------------------------------

  /** No expiry task for the lease is on the wheel or with the handler. */
  ghost predicate Unscheduled(n: State, k: Key, lease: Instance) {
    (forall t :: t in n.wheel ==> !Fits(t, k, lease)) && (forall t :: t in n.batch ==> !Fits(t, k, lease))
  }

  lemma StillUnscheduled(cfg: Config, n: State, x: Region, k: Key, lease: Instance)
    requires Unscheduled(n, k, lease) && (x.Enqueue? ==> !Fits(x.task, k, lease))
    ensures Unscheduled(Do(cfg, n, x), k, lease)
  {
    if x.Turn? {
      DoTurn(cfg, n, x.due);
      TurnTakesDue(cfg, n, x.due);
    } else {
      WheelAfter(cfg, n, x);
    }
  }

  /** A lease applied by a writer that never comes to schedule it, as one held up in
      Publish never does, is held for ever: no run ends it, whatever the clocks read. */
  lemma {:induction false} UnscheduledLeaseNeverExpires(cfg: Config, n: State, xs: seq<Region>, k: Key, lease: Instance)
    requires Holding(n, k, lease) && Unscheduled(n, k, lease)
    requires forall x :: x in xs ==> !WritesKey(x, k) && (x.Enqueue? ==> !Fits(x.task, k, lease))
    ensures Holding(DoAll(cfg, n, xs), k, lease) && Unscheduled(DoAll(cfg, n, xs), k, lease)
  {
    if xs != [] {
      var before := DoAll(cfg, n, xs[..|xs| - 1]);
      UnscheduledLeaseNeverExpires(cfg, n, xs[..|xs| - 1], k, lease);
      StillHolding(cfg, before, xs[|xs| - 1], k, lease);
      StillUnscheduled(cfg, before, xs[|xs| - 1], k, lease);
    }
  }

  lemma TakenTooSoon(cfg: Config, n: State, r: Reading, k: Key)
    requires StoreOk(n.store) && n.job.Idle? && n.batch != []
    requires k in n.store.entries && Leased(n.store.entries[k].record)
    requires n.batch[0] == ExpiryTask(n.store.entries[k].record) && r.service < n.batch[0].deadline
    ensures Do(cfg, n, Serve(r)) == n.(batch := n.batch[1..])
  {
    DoServe(cfg, n, r);
    assert CellOk(CellAt(n.store, k), k);
    VersionRoundTrip(n.store.entries[k].record.version);
  }

  lemma OnlyTaskGone(n: State, k: Key)
    requires n.job.Idle? && n.batch != [] && k in n.store.entries && Leased(n.store.entries[k].record)
    requires n.batch[0] == ExpiryTask(n.store.entries[k].record) && Pool(n)[n.batch[0]] == 1
    ensures !AllWait(n.(batch := n.batch[1..]))
  {
    var after := n.(batch := n.batch[1..]);
    assert n.batch == [n.batch[0]] + n.batch[1..];
    assert Pool(n)[n.batch[0]] == 1 + Pool(after)[n.batch[0]];
  }

  /** A task taken while the service's clock reads a time before its deadline is dropped,
      and a lease whose only task it was has none left: over the taking of a lease's only
      task a node stays sound exactly when that reading is not early. */
  lemma TakenTooSoonIsForgotten(cfg: Config, n: State, r: Reading, k: Key)
    requires cfg.Ok() && Sound(cfg, n) && n.job.Idle? && n.batch != [] && r.Ok()
    requires k in n.store.entries && Leased(n.store.entries[k].record)
    requires n.batch[0] == ExpiryTask(n.store.entries[k].record) && Pool(n)[n.batch[0]] == 1
    ensures Sound(cfg, Do(cfg, n, Serve(r))) <==> n.batch[0].deadline <= r.service
  {
    if n.batch[0].deadline <= r.service {
      DoKeepsSound(cfg, n, Serve(r));
    } else {
      TakenTooSoon(cfg, n, r, k);
      OnlyTaskGone(n, k);
    }
  }

  // A registration with a millisecond to live, applied and not yet scheduled, while the
  // wheel ticks to its deadline.

  const BRISK_KEY := Key("s", "i")

  const BRISK_REQUEST := Request("s", "i", "reg", Endpoint("h", 80, "http", map[]), false)

  const BRISK := RegisterMutation(EMPTY_CELL, BRISK_REQUEST, "a", Version(1, 0, "a"), 1,
                                  Reading(1, 0, 0, "lease", "evt"))

  function QuietNode(s: Store, current: Time, hands: multiset<Task>): State {
    State(s, Version(1, 0, "a"), multiset{}, current, multiset{}, [], Idle, hands)
  }

  lemma BriskIsValid()
    ensures BRISK.Valid() && BRISK.record.RecordKey() == BRISK_KEY
    ensures DeadlineAfter(0, BRISK.remainingTtl) == 1_000_000
  {}

  lemma BriskIsApplied(encode: Encoding)
    ensures var s := Step(encode, EMPTY_STORE, Deliver(BRISK, 0));
            && BRISK_KEY in s.entries && Leased(s.entries[BRISK_KEY].record)
            && s.entries[BRISK_KEY].record.leaseDeadline == 1_000_000
            && AnswerTo(Config(encode, "a", 1_000_000, 0, 0, 0), EMPTY_STORE, BRISK, 0).Applied?
  {
    BriskIsValid();
    assert CellAt(EMPTY_STORE, BRISK_KEY) == EMPTY_CELL;
  }

  lemma EmptyTurn(cfg: Config, s: Store, current: Time, hands: multiset<Task>)
    ensures Do(cfg, QuietNode(s, current, hands), Turn([])) == QuietNode(s, current + cfg.tick, hands)
  {
    DoTurn(cfg, QuietNode(s, current, hands), []);
    var none: multiset<Task> := multiset{};
    assert none - multiset([]) == none;
  }

  lemma AppliedNotScheduled(encode: Encoding)
    ensures var cfg := Config(encode, "a", 1_000_000, 0, 0, 0);
            var n := QuietNode(EMPTY_STORE, 0, multiset{});
            var later := Do(cfg, Do(cfg, n, Finish(BRISK, 0)), Turn([]));
            && Sound(cfg, n) && later.current == 1_000_000
            && BRISK_KEY in later.store.entries && Leased(later.store.entries[BRISK_KEY].record)
            && later.store.entries[BRISK_KEY].record.leaseDeadline <= later.current
            && !AllScheduled(later.store, later.wheel + multiset(later.batch))
  {
    var cfg := Config(encode, "a", 1_000_000, 0, 0, 0);
    var n := QuietNode(EMPTY_STORE, 0, multiset{});
    BriskIsApplied(encode);
    DoFinish(cfg, n, BRISK, 0);
    var applied := Do(cfg, n, Finish(BRISK, 0));
    assert applied == QuietNode(Step(encode, EMPTY_STORE, Deliver(BRISK, 0)), 0, applied.hands);
    EmptyTurn(cfg, applied.store, 0, applied.hands);
  }

  // ---- What the handler does, with nothing in between --------------------

  /** An ACTIVE lease whose own delay mark is taken is DELAYED afterwards, as of that
      reading, and nothing else is changed. */
  lemma TakenMarkDelays(cfg: Config, n: State, r: Reading, k: Key)
    requires StoreOk(n.store) && n.job.Idle? && n.batch != []
    requires k in n.store.entries && n.store.entries[k].record.status.ACTIVE?
    requires n.batch[0] == DelayMark(n.store.entries[k].record, cfg.ahead)
    ensures var held, after := n.store.entries[k].record, Do(cfg, n, Serve(r));
            && after == n.(store := after.store, batch := n.batch[1..])
            && k in after.store.entries
            && after.store.entries[k].record == held.(status := DELAYED, reason := HEARTBEAT_DELAYED,
                                                      updatedAt := r.service)
            && forall other :: other != k ==> CellAt(after.store, other) == CellAt(n.store, other)
  {
    var held := n.store.entries[k].record;
    DoServe(cfg, n, r);
    assert CellOk(CellAt(n.store, k), k);
    VersionRoundTrip(held.version);
    DelayMarksExactly(CellAt(n.store, k), held.leaseId, held.version, r.service);
    var op := Delay(k, held.leaseId, held.version, r.service);
    forall other { StepIsPerKey(cfg.encode, n.store, op, other); }
  }

  /** A due lease whose own expiry task is taken is evicted as of that reading. */
  lemma TakenExpiryEvicts(cfg: Config, n: State, r: Reading, k: Key)
    requires cfg.Ok() && Sound(cfg, n) && n.job.Idle? && n.batch != [] && r.Ok()
    requires k in n.store.entries && Leased(n.store.entries[k].record)
    requires n.batch[0] == ExpiryTask(n.store.entries[k].record) && n.batch[0].deadline <= r.service
    ensures var held, found := n.store.entries[k].record, Do(cfg, n, Serve(r));
            var drawn := Do(cfg, found, DrawExpiry);
            EvictedBy(CellAt(Do(cfg, drawn, Evict).store, k), held, cfg.nodeId, NowAfter(cfg.nodeId, n.last, r.wall), r)
  {
    var held, task := n.store.entries[k].record, n.batch[0];
    var version := NowAfter(cfg.nodeId, n.last, r.wall);
    OwnTaskMatches(n.store, k, task, r.service);
    DoServe(cfg, n, r);
    var found := n.(batch := n.batch[1..], job := Found(task, held, r));
    assert Do(cfg, n, Serve(r)) == found;
    DoDrawExpiry(cfg, found);
    var drawn := found.(last := version, job := Drawn(task, held, r, version));
    assert Do(cfg, found, DrawExpiry) == drawn;
    DoEvict(cfg, drawn);
    assert CellOk(CellAt(n.store, k), k);
    NowCoversSeen(cfg.nodeId, n.last, r.wall, held.version);
    ExpiryApplies(cfg.encode, CellAt(n.store, k), k, cfg.nodeId, version, r, r.registry);
    ExpiryLeaves(cfg.encode, CellAt(n.store, k), held, cfg.nodeId, version, r, r.registry);
    StepIsPerKey(cfg.encode, n.store, Deliver(Eviction(cfg, drawn.job), r.registry), k);
  }

  /** A version within the skew, in milliseconds, moves the clock past it; one further ahead
      changes nothing. */
  lemma ObservesWithinSkew(cfg: Config, n: State, remote: Version, wall: Int64)
    requires ValidVersion(remote) && !Saturated(n.last) && !Saturated(remote) && wall + cfg.skewMillis <= MAX_INT64
    ensures var after := Do(cfg, n, Observe(remote, wall));
            if remote.physical - wall <= cfg.skewMillis
            then PairBefore(remote, after.last) && PairBefore(n.last, after.last) && after == n.(last := after.last)
            else after == n
  {
    DoObserve(cfg, n, remote, wall);
    AcceptedWithinSkew(cfg.skewMillis, wall, remote);
    ObserveIsLeast(cfg.nodeId, n.last, wall, remote);
  }

  lemma CollectionAt(cfg: Config, s: Store, now: Time, k: Key)
    requires 0 < cfg.retention <= MAX_INT64 && k in s.entries
    ensures var t, record := Step(cfg.encode, s, Gc(now, cfg.retention)), s.entries[k].record;
            && t.fences == s.fences
            && (k !in t.entries <==> record.status.EVICTED? && record.evictedAt.Some?
                                     && now - record.evictedAt.value >= cfg.retention)
            && (k in t.entries ==> t.entries[k] == s.entries[k])
  {
    StepIsPerKey(cfg.encode, s, Gc(now, cfg.retention), k);
    CollectsExactly(CellAt(s, k), now, cfg.retention);
    assert CellAt(Step(cfg.encode, s, Gc(now, cfg.retention)), k) == Collect(CellAt(s, k), now, cfg.retention);
  }

  /** Collection, by the maintenance loop or as a task, removes exactly the tombstones that
      are old enough; fences and everything else stay. */
  lemma SweepsOldTombstones(cfg: Config, n: State, now: Time, k: Key)
    requires 0 < cfg.retention <= MAX_INT64 && k in n.store.entries
    ensures var after, record := Do(cfg, n, Sweep(now)), n.store.entries[k].record;
            && after == n.(store := after.store) && after.store.fences == n.store.fences
            && (k !in after.store.entries <==> record.status.EVICTED? && record.evictedAt.Some?
                                               && now - record.evictedAt.value >= cfg.retention)
            && (k in after.store.entries ==> after.store.entries[k] == n.store.entries[k])
  {
    DoSweep(cfg, n, now);
    CollectionAt(cfg, n.store, now, k);
  }

  lemma TakenCollectionSweeps(cfg: Config, n: State, r: Reading)
    requires n.job.Idle? && n.batch != [] && n.batch[0].kind.CollectTask?
    ensures Do(cfg, n, Serve(r)) == Do(cfg, n, Sweep(r.service)).(batch := n.batch[1..])
  {
    DoServe(cfg, n, r);
    DoSweep(cfg, n, r.service);
  }
}
