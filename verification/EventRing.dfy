/** The event ring (backend/internal/events/ring.go): a bounded log with cursors,
    and a fan-out that never waits for a subscriber. */
module EventRing {
  import opened Ordering
  import opened Versions
  import opened Model

  datatype Delivery = Delivery(attemptId: string, sourceNode: string, targetNode: string, hop: int, outcome: string)

  datatype Event = Event(
    number: nat, schemaVersion: int, streamNodeId: string, streamBootId: string, kind: string, eventId: string,
    entityKey: string, revision: string, originNodeId: string, occurredAt: Time, payload: string,
        delivery: Option<Delivery>)

  const SCHEMA_VERSION := 1
  const RESYNC_REQUIRED := "RESYNC_REQUIRED"
  const DEFAULT_LIMIT := 200

  // ---- Channels ----------------------------------------------------------

  /** A buffered channel, with what its consumer has taken out so far. */
  datatype Channel = Channel(queue: seq<Event>, capacity: nat, open: bool, taken: seq<Event>) {
    /** A send proceeds at once only with room, and panics on a closed channel. */
    function Send(e: Event): Channel
      requires open && |queue| < capacity
    {
      this.(queue := queue + [e])
    }

    function Close(): Channel
      requires open
    {
      this.(open := false)
    }

    function Receive(): Channel
      requires queue != []
    {
      this.(queue := queue[1..], taken := taken + [queue[0]])
    }

    /** Everything the consumer has or will get, in order, if nothing more is sent. */
    function Stream(): seq<Event> { taken + queue }
  }

  datatype Config = Config(capacity: nat, nodeId: string, bootId: string)

  datatype Hub = Hub(entries: seq<Event>, next: nat, subs: set<nat>, nextSub: nat, dropped: nat, channels: map<nat,
                     Channel>)

  const EMPTY_HUB := Hub([], 1, {}, 0, 0, map[])

  // ---- Operations as functions -------------------------------------------

  function Stamped(config: Config, e: Event, number: nat, now: Time): Event {
    e.(number := number, schemaVersion := SCHEMA_VERSION, streamNodeId := config.nodeId, streamBootId := config.bootId,
       originNodeId := if e.originNodeId == "" then config.nodeId else e.originNodeId,
       occurredAt := if e.occurredAt == ZERO_TIME then now else e.occurredAt,
       eventId := if e.eventId == "" then "evt-" + config.nodeId + "-" + FormatNat(number) else e.eventId)
  }

  function Notice(config: Config, number: nat, now: Time): Event {
    Event(number, SCHEMA_VERSION, config.nodeId, config.bootId, RESYNC_REQUIRED,
          "resync-" + config.nodeId + "-" + FormatNat(number),
          "", "", config.nodeId, now, "{\"reason\":\"slow_consumer\"}", None)
  }

  function Kept(entries: seq<Event>, capacity: nat, e: Event): seq<Event>
    requires capacity > 0
  {
    if |entries| == capacity then entries[1..] + [e] else entries + [e]
  }

  predicate Full(c: Channel) { |c.queue| >= c.capacity }

  /** Deliver, or replace a full queue by one resync notice and close. */
  function Offer(c: Channel, e: Event, notice: Event): Channel
    requires c.open && c.capacity > 0
  {
    if !Full(c) then c.Send(e) else c.(queue := []).Send(notice).Close()
  }

  /** Every registered subscription has an open channel with room for two. */
  predicate Registered(s: Hub) {
    && (forall id :: id in s.subs ==> id in s.channels && s.channels[id].open && s.channels[id].capacity >= 2)
    && (forall id :: id in s.channels ==> id <= s.nextSub)
  }

  /** The subscriptions among `some` that have no room. */
  function Slow(channels: map<nat, Channel>, some: set<nat>): set<nat>
    requires some <= channels.Keys
  {
    set id | id in some && Full(channels[id])
  }

  predicate AllOpen(channels: map<nat, Channel>, some: set<nat>) {
    forall id :: id in some ==> id in channels && channels[id].open && channels[id].capacity > 0
  }

  /** One event offered to the subscriptions in `some`. */
  function Offered(channels: map<nat, Channel>, some: set<nat>, e: Event, notice: Event): (r: map<nat, Channel>)
    requires AllOpen(channels, some)
    ensures r.Keys == channels.Keys
  {
    map id | id in channels :: if id in some then Offer(channels[id], e, notice) else channels[id]
  }

  lemma OfferOneMore(channels: map<nat, Channel>, all: set<nat>, todo: set<nat>, id: nat, e: Event, notice: Event)
    requires AllOpen(channels, all) && todo <= all && id in todo
    ensures Offered(channels, all - todo, e, notice)[id] == channels[id]
    ensures Offered(channels, all - (todo - {id}), e, notice)
            == Offered(channels, all - todo, e, notice)[id := Offer(channels[id], e, notice)]
    ensures all - Slow(channels, all - (todo - {id})) == all - Slow(channels, all - todo) - if Full(channels[id])
            then {id} else {}
    ensures |Slow(channels, all - (todo - {id}))| == |Slow(channels, all - todo)| + if Full(channels[id]) then 1 else 0
  {
    assert Slow(channels, all - (todo - {id})) == Slow(channels, all - todo) + if Full(channels[id]) then {id} else {};
  }

  function Published(config: Config, s: Hub, e: Event, now: Time): Hub
    requires config.capacity > 0 && Registered(s)
  {
    var event, slow := Stamped(config, e, s.next, now), Slow(s.channels, s.subs);
    Hub(Kept(s.entries, config.capacity, event), s.next + 1, s.subs - slow, s.nextSub, s.dropped + |slow|,
        Offered(s.channels, s.subs, event, Notice(config, s.next, now)))
  }

  function Newer(entries: seq<Event>, cursor: nat): seq<Event> {
    if entries == [] then []
    else
      var init, e := entries[..|entries| - 1], entries[|entries| - 1];
      if e.number <= cursor then Newer(init, cursor) else Newer(init, cursor) + [e]
  }

  predicate Expired(s: Hub, cursor: nat) { s.entries != [] && cursor > 0 && cursor < s.entries[0].number - 1 }

  function AtMostFirst(events: seq<Event>, limit: int): seq<Event> {
    var n := if limit <= 0 then DEFAULT_LIMIT else limit;
    if |events| <= n then events else events[..n]
  }

  datatype Page = Page(events: seq<Event>, cursor: nat) | CursorExpired(cursor: nat)

  function SinceOf(s: Hub, cursor: nat, limit: int): Page
    requires s.next > 0
  {
    if Expired(s, cursor) then CursorExpired(s.next - 1)
    else Page(AtMostFirst(Newer(s.entries, cursor), limit), s.next - 1)
  }

  function RecentOf(s: Hub, limit: int): seq<Event> {
    if limit <= 0 || limit > |s.entries| then s.entries else s.entries[|s.entries| - limit..]
  }

  /** Subscribe's first critical section reserves an id; the second registers the
      channel, already holding what was pending at the first. */
  function Reserved(s: Hub): Hub { s.(nextSub := s.nextSub + 1) }

  function QueueSize(queue: int, pending: nat): nat {
    var size := if queue < 2 then 2 else queue;
    if size < pending + 1 then pending + 1 else size
  }

  function Attached(s: Hub, id: nat, pending: seq<Event>, queue: int): Hub {
    s.(subs := s.subs + {id}, channels := s.channels[id := Channel(pending, QueueSize(queue, |pending|), true, [])])
  }

  function Cancelled(s: Hub, id: nat): Hub
    requires Registered(s)
  {
    if id in s.subs then s.(subs := s.subs - {id}, channels := s.channels[id := s.channels[id].Close()]) else s
  }

  function Received(s: Hub, id: nat): Hub {
    if id in s.channels && s.channels[id].queue != [] then s.(channels := s.channels[id := s.channels[id].Receive()])
       else s
  }

  // ---- The ring ----------------------------------------------------------

  class Ring {
    const config: Config
    const entries: array<Event>
    var size: nat
    var next: nat
    var subs: set<nat>
    var nextSub: nat
    var dropped: nat
    var channels: map<nat, Channel>

    ghost predicate Valid()
      reads this, entries
    {
      config.capacity > 0 && entries.Length == config.capacity && size <= entries.Length && next > 0
          && Registered(View())
    }

    ghost function View(): Hub
      reads this, entries
      requires size <= entries.Length
    {
      Hub(entries[..size], next, subs, nextSub, dropped, channels)
    }

    constructor (capacity: int, nodeId: string, bootId: string)
      ensures Valid() && fresh(entries) && View() == EMPTY_HUB
      ensures config == Config(if capacity < 1 then 1 else capacity, nodeId, bootId)
    {
      var room: nat := if capacity < 1 then 1 else capacity;
      config := Config(room, nodeId, bootId);
      entries := new Event[room];
      size, next, subs, nextSub, dropped, channels := 0, 1, {}, 0, 0, map[];
    }

    /** The log's part of Publish: shift out the oldest when full. */
    method Append(e: Event)
      requires 0 < entries.Length && size <= entries.Length
      modifies this`size, entries
      ensures size <= entries.Length && entries[..size] == Kept(old(entries[..size]), entries.Length, e)
    {
      if size == entries.Length {
        ghost var was := entries[..size];
        for i := 0 to size - 1
          invariant size == entries.Length && entries[..i] == was[1..i + 1] && entries[i..] == was[i..]
        {
          entries[i] := entries[i + 1];
        }
        entries[size - 1] := e;
      } else {
        entries[size] := e;
        size := size + 1;
      }
    }

    /** Publish's first half: the fields a publisher may leave out. */
    method Stamp(e: Event, number: nat, now: Time) returns (event: Event)
      ensures event == Stamped(config, e, number, now)
    {
      event := e.(number := number);
      event := event.(schemaVersion := SCHEMA_VERSION, streamNodeId := config.nodeId, streamBootId := config.bootId);
      if event.originNodeId == "" {
        event := event.(originNodeId := config.nodeId);
      }
      if event.occurredAt == ZERO_TIME {
        event := event.(occurredAt := now);
      }
      if event.eventId == "" {
        event := event.(eventId := "evt-" + config.nodeId + "-" + FormatNat(event.number));
      }
    }

    /** Publish: log the event, then offer it to every subscription. As one step, no
        send waits and no closed channel is sent to. */
    method Publish(e: Event, now: Time) returns (event: Event)
      requires Valid()
      modifies this, entries
      ensures Valid() && View() == Published(config, old(View()), e, now)
      ensures event == Stamped(config, e, old(next), now)
    {
      event := Stamp(e, next, now);
      next := next + 1;
      Append(event);
      FanOut(event, now);
    }

    /** Publish's fan-out, over the subscriptions in any order. */
    method FanOut(event: Event, now: Time)
      requires size <= entries.Length && Registered(View())
      modifies this`subs, this`channels, this`dropped
      ensures var slow := Slow(old(channels), old(subs));
              && subs == old(subs) - slow && dropped == old(dropped) + |slow|
              && channels == Offered(old(channels), old(subs), event, Notice(config, event.number, now))
    {
      var todo := subs;
      ghost var was, all := channels, subs;
      assert all - todo == {};
      while todo != {}
        invariant todo <= all
        invariant channels == Offered(was, all - todo, event, Notice(config, event.number, now))
        invariant subs == all - Slow(was, all - todo)
        invariant dropped == old(dropped) + |Slow(was, all - todo)|
        decreases |todo|
      {
        var id :| id in todo;
        OfferOneMore(was, all, todo, id, event, Notice(config, event.number, now));
        OfferTo(id, event, Notice(config, event.number, now));
        todo := todo - {id};
      }
      assert all - todo == all;
    }

    method OfferTo(id: nat, event: Event, notice: Event)
      requires id in channels && channels[id].open && channels[id].capacity > 0
      modifies this`subs, this`channels, this`dropped
      ensures channels == old(channels)[id := Offer(old(channels)[id], event, notice)]
      ensures subs == old(subs) - if Full(old(channels)[id]) then {id} else {}
      ensures dropped == old(dropped) + if Full(old(channels)[id]) then 1 else 0
    {
      var sub := channels[id];
      if |sub.queue| < sub.capacity {
        channels := channels[id := sub.Send(event)];
      } else {
        dropped := dropped + 1;
        while |sub.queue| > 0
          invariant sub == channels[id].(queue := sub.queue)
        {
          sub := sub.(queue := sub.queue[1..]);
        }
        sub := sub.Send(notice);
        channels := channels[id := sub.Close()];
        subs := subs - {id};
      }
    }

    method Since(cursor: nat, limit: int) returns (page: Page)
      requires Valid()
      ensures page == SinceOf(View(), cursor, limit)
    {
      var most := if limit <= 0 then DEFAULT_LIMIT else limit;
      if size == 0 {
        return Page([], next - 1);
      }
      if cursor > 0 && cursor < entries[0].number - 1 {
        return CursorExpired(next - 1);
      }
      var found: seq<Event> := [];
      ghost var all := entries[..size];
      for i := 0 to size
        invariant all == entries[..size] && found == Newer(all[..i], cursor) && |found| < most
      {
        NextNewer(all, i, cursor);
        if entries[i].number > cursor {
          found := found + [entries[i]];
          if |found| == most {
            FullPage(all, i + 1, cursor, limit);
            return Page(found, next - 1);
          }
        }
      }
      assert all[..size] == all;
      page := Page(found, next - 1);
    }

    method Recent(limit: int) returns (events: seq<Event>)
      requires Valid()
      ensures events == RecentOf(View(), limit)
    {
      var n := if limit <= 0 || limit > size then size else limit;
      events := [];
      for i := size - n to size
        invariant events == entries[size - n..i]
      {
        events := events + [entries[i]];
      }
    }

    /** The first critical section of Subscribe. */
    method Prepare(cursor: nat) returns (expired: bool, id: nat, pending: seq<Event>)
      requires Valid()
      modifies this`nextSub
      ensures Valid() && expired == Expired(old(View()), cursor)
      ensures expired ==> View() == old(View())
      ensures !expired ==>
               View() == Reserved(old(View())) && id == nextSub && pending == Newer(old(View()).entries, cursor)
    {
      id, pending := 0, [];
      if size > 0 && cursor > 0 && cursor < entries[0].number - 1 {
        return true, 0, [];
      }
      expired := false;
      ghost var all := entries[..size];
      for i := 0 to size
        invariant nextSub == old(nextSub) && all == entries[..size] && pending == Newer(all[..i], cursor)
      {
        NextNewer(all, i, cursor);
        if entries[i].number > cursor {
          pending := pending + [entries[i]];
        }
      }
      assert all[..size] == all;
      nextSub := nextSub + 1;
      id := nextSub;
    }

    /** The rest of Subscribe: a channel with room for all that is pending and one
        event more, so that filling it never waits. */
    method Attach(id: nat, pending: seq<Event>, queue: int)
      requires Valid() && id <= nextSub && id !in channels
      modifies this`subs, this`channels
      ensures Valid() && View() == Attached(old(View()), id, pending, queue)
    {
      var capacity := if queue < 2 then 2 else queue;
      if capacity < |pending| + 1 {
        capacity := |pending| + 1;
      }
      var channel := Channel([], capacity, true, []);
      for i := 0 to |pending|
        invariant channel == Channel(pending[..i], capacity, true, [])
      {
        channel := channel.Send(pending[i]);
      }
      assert pending[..|pending|] == pending;
      channels, subs := channels[id := channel], subs + {id};
    }

    /** Subscribe, with nothing between its two sections. */
    method Subscribe(cursor: nat, queue: int) returns (expired: bool, id: nat)
      requires Valid()
      modifies this`nextSub, this`subs, this`channels
      ensures Valid() && expired == Expired(old(View()), cursor)
      ensures expired ==> View() == old(View())
      ensures !expired ==> id == nextSub && View() == Attached(Reserved(old(View())), id,
                Newer(old(View()).entries, cursor), queue)
    {
      var pending: seq<Event>;
      expired, id, pending := Prepare(cursor);
      if !expired {
        Attach(id, pending, queue);
      }
    }

    method Cancel(id: nat)
      requires Valid()
      modifies this`subs, this`channels
      ensures Valid() && View() == Cancelled(old(View()), id)
    {
      if id in subs {
        channels, subs := channels[id := channels[id].Close()], subs - {id};
      }
    }
  }

  lemma NextNewer(entries: seq<Event>, i: nat, cursor: nat)
    requires i < |entries|
    ensures Newer(entries[..i + 1], cursor) == Newer(entries[..i], cursor) + if entries[i].number > cursor
            then [entries[i]] else []
  {
    assert entries[..i + 1][..i] == entries[..i];
  }

  lemma {:induction false} NewerPrefix(entries: seq<Event>, i: nat, cursor: nat)
    requires i <= |entries|
    ensures Newer(entries[..i], cursor) <= Newer(entries, cursor)
  {
    if i < |entries| {
      var init := entries[..|entries| - 1];
      assert init[..i] == entries[..i];
      NewerPrefix(init, i, cursor);
    } else {
      assert entries[..i] == entries;
    }
  }

  lemma FullPage(entries: seq<Event>, i: nat, cursor: nat, limit: int)
    requires i <= |entries| && |Newer(entries[..i], cursor)| == if limit <= 0 then DEFAULT_LIMIT else limit
    ensures AtMostFirst(Newer(entries, cursor), limit) == Newer(entries[..i], cursor)
  {
    NewerPrefix(entries, i, cursor);
  }

  // ---- Runs --------------------------------------------------------------

  datatype HubOp =
    | Publish(e: Event, now: Time)
    | Reserve
    | Attach(id: nat, pending: seq<Event>, queue: int)
    | Cancel(id: nat)
    | Receive(id: nat)

  function Step(config: Config, s: Hub, op: HubOp): (t: Hub)
    requires config.capacity > 0 && Registered(s)
    ensures Registered(t)
  {
    match op
    case Publish(e, now) => Published(config, s, e, now)
    case Reserve => Reserved(s)
    case Attach(id, pending, queue) => if id <= s.nextSub
        && id !in s.channels then Attached(s, id, pending, queue) else s
    case Cancel(id) => Cancelled(s, id)
    case Receive(id) => Received(s, id)
  }

  function Run(config: Config, s: Hub, ops: seq<HubOp>): (t: Hub)
    requires config.capacity > 0 && Registered(s)
    ensures Registered(t)
  {
    if ops == [] then s else Step(config, Run(config, s, ops[..|ops| - 1]), ops[|ops| - 1])
  }

  /** The events a run publishes, as published. */
  function Log(config: Config, s: Hub, ops: seq<HubOp>): seq<Event>
    requires config.capacity > 0 && Registered(s)
  {
    if ops == [] then []
    else
      var init, op := ops[..|ops| - 1], ops[|ops| - 1];
      Log(config, s, init) + if op.Publish? then [Stamped(config, op.e, Run(config, s, init).next, op.now)] else []
  }

  // ---- The bounded log ---------------------------------------------------

  predicate Numbered(log: seq<Event>) { forall i :: 0 <= i < |log| ==> log[i].number == i + 1 }

  function Lost(config: Config, log: seq<Event>): nat { if |log| <= config.capacity then 0
                                                       else |log| - config.capacity }

  /** The ring after publishing `log` in all: its last `capacity` events. */
  predicate Holds(config: Config, s: Hub, log: seq<Event>) {
    s.next == |log| + 1 && Numbered(log) && s.entries == log[Lost(config, log)..]
  }

  lemma StepHolds(config: Config, s: Hub, log: seq<Event>, op: HubOp)
    requires config.capacity > 0 && Registered(s) && Holds(config, s, log)
    ensures Holds(config, Step(config, s, op), log + if op.Publish? then [Stamped(config, op.e, s.next, op.now)]
                  else [])
  {}

  /** After any run the buffer is the last min(capacity, n) events of those published,
      numbered from one without gaps. */
  lemma {:induction false} RunHolds(config: Config, s: Hub, log: seq<Event>, ops: seq<HubOp>)
    requires config.capacity > 0 && Registered(s) && Holds(config, s, log)
    ensures Holds(config, Run(config, s, ops), log + Log(config, s, ops))
  {
    if ops == [] {
      assert log + Log(config, s, ops) == log;
    } else {
      var init, op := ops[..|ops| - 1], ops[|ops| - 1];
      RunHolds(config, s, log, init);
      StepHolds(config, Run(config, s, init), log + Log(config, s, init), op);
      var more := if op.Publish? then [Stamped(config, op.e, Run(config, s, init).next, op.now)] else [];
      assert log + Log(config, s, ops) == log + Log(config, s, init) + more;
    }
  }

  function Max(a: nat, b: nat): nat { if a < b then b else a }

  function Min(a: nat, b: nat): nat { if a < b then a else b }

  lemma DropThenLast(entries: seq<Event>, a: nat)
    requires a < |entries|
    ensures entries[a..] == entries[..|entries| - 1][a..] + [entries[|entries| - 1]]
  {}

  /** Of consecutively numbered events, those after a cursor are a suffix. */
  lemma {:induction false} NewerIsSuffix(entries: seq<Event>, base: nat, cursor: nat)
    requires forall i :: 0 <= i < |entries| ==> entries[i].number == base + i + 1
    ensures Newer(entries, cursor) == entries[Min(Max(cursor, base) - base, |entries|)..]
  {
    if entries != [] {
      var n := |entries| - 1;
      NewerIsSuffix(entries[..n], base, cursor);
      var least := Max(cursor, base) - base;
      if least <= n {
        DropThenLast(entries, least);
      }
    }
  }

  /** Where in the log reading from a cursor starts: there, or at the oldest kept. */
  function Start(config: Config, log: seq<Event>, cursor: nat): nat { Min(Max(cursor, Lost(config, log)), |log|) }

  lemma NewerReadsLog(config: Config, s: Hub, log: seq<Event>, cursor: nat)
    requires config.capacity > 0 && Holds(config, s, log)
    ensures Newer(s.entries, cursor) == log[Start(config, log, cursor)..]
  {
    var lost, from := Lost(config, log), Start(config, log, cursor);
    NewerIsSuffix(s.entries, lost, cursor);
    DropTwice(log, lost, from - lost);
  }

  lemma DropTwice(log: seq<Event>, a: nat, b: nat)
    requires a + b <= |log|
    ensures log[a..][b..] == log[a + b..]
  {}

  lemma ExpiredWhenLost(config: Config, s: Hub, log: seq<Event>, cursor: nat)
    requires config.capacity > 0 && Holds(config, s, log)
    ensures Expired(s, cursor) <==> 0 < cursor < Lost(config, log)
  {
    if s.entries != [] {
      assert s.entries[0] == log[Lost(config, log)];
    }
  }

  /** Since answers from the whole log: it reports expiry exactly when a cursor is
      given and the event after it was published and dropped; otherwise it returns the
      next events in order, up to the limit, from the cursor on, or from the oldest
      kept for cursor zero. */
  lemma SinceReadsLog(config: Config, s: Hub, log: seq<Event>, cursor: nat, limit: int)
    requires config.capacity > 0 && Holds(config, s, log)
    ensures SinceOf(s, cursor, limit).CursorExpired? <==> 0 < cursor < Lost(config, log)
    ensures SinceOf(s, cursor, limit).cursor == |log|
    ensures SinceOf(s, cursor, limit).Page? ==>
              var from, n := Start(config, log, cursor), if limit <= 0 then DEFAULT_LIMIT else limit;
              && SinceOf(s, cursor, limit).events == log[from..Min(from + n, |log|)]
              && (0 < cursor <= |log| ==> from == cursor)
  {
    ExpiredWhenLost(config, s, log, cursor);
    assert s.next == |log| + 1;
    if !Expired(s, cursor) {
      PageReadsLog(config, s, log, cursor, limit);
    }
  }

  lemma PageReadsLog(config: Config, s: Hub, log: seq<Event>, cursor: nat, limit: int)
    requires config.capacity > 0 && Holds(config, s, log)
    ensures var from, n := Start(config, log, cursor), if limit <= 0 then DEFAULT_LIMIT else limit;
            AtMostFirst(Newer(s.entries, cursor), limit) == log[from..Min(from + n, |log|)]
  {
    NewerReadsLog(config, s, log, cursor);
    FirstOfSuffix(log, Start(config, log, cursor), limit);
  }

  lemma FirstOfSuffix(log: seq<Event>, from: nat, limit: int)
    requires from <= |log|
    ensures AtMostFirst(log[from..], limit) == log[from..Min(from + if limit <= 0 then DEFAULT_LIMIT else limit, |log|)]
  {}

  // ---- Polling -----------------------------------------------------------

  datatype ReaderStep = Do(op: HubOp) | Poll(limit: int)

  /** A client that polls from the number of the last event it got, and gives up when
      told its cursor expired. */
  datatype Reader = Reader(cursor: nat, got: seq<Event>, expired: bool)

  function ReadPage(page: Page, r: Reader): Reader {
    match page
    case CursorExpired(_) => r.(expired := true)
    case Page(events, _) => if events == [] then r else Reader(events[|events| - 1].number, r.got + events, false)
  }

  function Read(s: Hub, r: Reader, limit: int): Reader
    requires s.next > 0
  {
    if r.expired then r else ReadPage(SinceOf(s, r.cursor, limit), r)
  }

  function Ops(steps: seq<ReaderStep>): seq<HubOp> {
    if steps == [] then []
    else Ops(steps[..|steps| - 1]) + if steps[|steps| - 1].Do? then [steps[|steps| - 1].op] else []
  }

  function Follow(config: Config, s: Hub, cursor: nat, steps: seq<ReaderStep>): Reader
    requires config.capacity > 0 && Registered(s) && s.next > 0
  {
    if steps == [] then Reader(cursor, [], false)
    else
      var init, last := steps[..|steps| - 1], steps[|steps| - 1];
      var r := Follow(config, s, cursor, init);
      RunNext(config, s, Ops(init));
      if last.Do? then r else Read(Run(config, s, Ops(init)), r, last.limit)
  }

  lemma {:induction false} RunNext(config: Config, s: Hub, ops: seq<HubOp>)
    requires config.capacity > 0 && Registered(s) && s.next > 0
    ensures Run(config, s, ops).next > 0
  {
    if ops != [] {
      RunNext(config, s, ops[..|ops| - 1]);
    }
  }

  /** One stretch of the log, ending at the cursor; it starts at the first cursor,
      unless that was zero. */
  predicate Collected(r: Reader, all: seq<Event>, first: nat) {
    && |r.got| <= r.cursor <= |all|
    && r.got == all[r.cursor - |r.got|..r.cursor]
    && (r.got == [] ==> r.cursor == first)
    && (first > 0 ==> r.cursor - |r.got| == first)
  }

  lemma Joins(all: seq<Event>, a: nat, b: nat, c: nat)
    requires a <= b <= c <= |all|
    ensures all[a..b] + all[b..c] == all[a..c]
  {}

  lemma PageExtends(all: seq<Event>, first: nat, r: Reader, events: seq<Event>, from: nat)
    requires Numbered(all) && Collected(r, all, first)
    requires events != [] && from + |events| <= |all| && events == all[from..from + |events|]
    requires from == r.cursor || (r.got == [] && first == 0)
    ensures Collected(Reader(events[|events| - 1].number, r.got + events, false), all, first)
  {
    var to := from + |events|;
    assert events[|events| - 1] == all[to - 1];
    var start := if r.got == [] then from else r.cursor - |r.got|;
    assert r.got == all[start..from];
    Joins(all, start, from, to);
  }

  lemma PageIsTaken(all: seq<Event>, first: nat, r: Reader, page: Page, from: nat, n: nat, next: Reader)
    requires Numbered(all) && Collected(r, all, first) && from <= |all| && next == ReadPage(page, r)
    requires page.Page? ==> page.events == all[from..Min(from + n, |all|)]
    requires page.Page? && 0 < r.cursor <= |all| ==> from == r.cursor
    ensures Collected(next, all, first)
  {
    if page.Page? && page.events != [] {
      assert from == r.cursor || (r.got == [] && first == 0);
      PageExtends(all, first, r, page.events, from);
    }
  }

  /** What PageIsTaken asks of a page, of the page Since gives. */
  lemma PageRead(config: Config, s: Hub, all: seq<Event>, cursor: nat, limit: int)
    returns (page: Page, from: nat, n: nat)
    requires config.capacity > 0 && Holds(config, s, all)
    ensures page == SinceOf(s, cursor, limit) && from <= |all|
    ensures page.Page? ==> page.events == all[from..Min(from + n, |all|)]
    ensures page.Page? && 0 < cursor <= |all| ==> from == cursor
  {
    SinceReadsLog(config, s, all, cursor, limit);
    page, from, n := SinceOf(s, cursor, limit), Start(config, all, cursor), if limit <= 0 then DEFAULT_LIMIT else limit;
  }

  lemma ReadTakes(s: Hub, r: Reader, limit: int)
    requires s.next > 0 && !r.expired
    ensures Read(s, r, limit) == ReadPage(SinceOf(s, r.cursor, limit), r)
  {}

  lemma PollExtends(config: Config, s: Hub, all: seq<Event>, first: nat, r: Reader, limit: int)
    requires config.capacity > 0 && Holds(config, s, all) && Collected(r, all, first)
    ensures Collected(Read(s, r, limit), all, first)
  {
    if !r.expired {
      var page, from, n := PageRead(config, s, all, r.cursor, limit);
      ReadTakes(s, r, limit);
      PageIsTaken(all, first, r, page, from, n, Read(s, r, limit));
    }
  }

  /** Polling is free of gaps and duplicates, with anything published in between. */
  lemma {:induction false} PollingHasNoGaps(config: Config, s: Hub, log: seq<Event>, cursor: nat,
                                            steps: seq<ReaderStep>)
    requires config.capacity > 0 && Registered(s) && Holds(config, s, log) && cursor <= |log|
    ensures Collected(Follow(config, s, cursor, steps), log + Log(config, s, Ops(steps)), cursor)
  {
    if steps == [] {
      assert log + Log(config, s, Ops(steps)) == log;
    } else {
      var init, last := steps[..|steps| - 1], steps[|steps| - 1];
      PollingHasNoGaps(config, s, log, cursor, init);
      RunHolds(config, s, log, Ops(init));
      var all := log + Log(config, s, Ops(init));
      RunNext(config, s, Ops(init));
      if last.Do? {
        LogGrows(config, s, Ops(init), last.op);
        CollectedGrows(Follow(config, s, cursor, init), all, log + Log(config, s, Ops(steps)), cursor);
      } else {
        assert Ops(steps) == Ops(init);
        PollExtends(config, Run(config, s, Ops(init)), all, cursor, Follow(config, s, cursor, init), last.limit);
      }
    }
  }

  lemma LogGrows(config: Config, s: Hub, ops: seq<HubOp>, op: HubOp)
    requires config.capacity > 0 && Registered(s)
    ensures Log(config, s, ops) <= Log(config, s, ops + [op])
  {
    assert (ops + [op])[..|ops|] == ops;
  }

  lemma CollectedGrows(r: Reader, all: seq<Event>, more: seq<Event>, first: nat)
    requires Collected(r, all, first) && all <= more
    ensures Collected(r, more, first)
  {}

  // ---- Subscriptions -----------------------------------------------------

  /** A stream cut short by a full queue: a prefix, then one notice that carries the
      number of the first event that found no room. */
  predicate Resynced(stream: seq<Event>, whole: seq<Event>) {
    var m := |stream| - 1;
    && stream != [] && stream[..m] <= whole && stream[m].kind == RESYNC_REQUIRED
    && exists j :: m <= j < |whole| && whole[j].number == stream[m].number
  }

  /** While registered a subscription has the whole stream; afterwards its channel is
      closed, on a prefix of it, with or without a notice. */
  predicate Follows(s: Hub, id: nat, whole: seq<Event>) {
    && id in s.channels
    && var stream := s.channels[id].Stream();
       if id in s.subs then stream == whole
       else !s.channels[id].open && (stream <= whole || Resynced(stream, whole))
  }

  lemma StepFollows(config: Config, s: Hub, id: nat, whole: seq<Event>, op: HubOp)
    requires config.capacity > 0 && Registered(s) && Follows(s, id, whole)
    ensures Follows(Step(config, s, op), id, whole + if op.Publish? then [Stamped(config, op.e, s.next, op.now)]
                    else [])
  {
    var c, t := s.channels[id], Step(config, s, op);
    var more := if op.Publish? then [Stamped(config, op.e, s.next, op.now)] else [];
    if op.Publish? {
      if id in s.subs {
        assert t.channels[id] == Offer(c, more[0], Notice(config, s.next, op.now));
        if Full(c) {
          var stream := t.channels[id].Stream();
          assert stream == c.taken + [Notice(config, s.next, op.now)];
          assert (whole + more)[|whole|].number == stream[|stream| - 1].number;
        }
      } else {
        assert t.channels[id] == c;
        FollowsGrows(c.Stream(), whole, more);
      }
    } else {
      assert whole + more == whole;
      if c.queue != [] {
        ReceiveKeepsStream(c);
      }
    }
  }

  lemma ReceiveKeepsStream(c: Channel)
    requires c.queue != []
    ensures c.Receive().Stream() == c.Stream()
  {}

  lemma FollowsGrows(stream: seq<Event>, whole: seq<Event>, more: seq<Event>)
    ensures stream <= whole ==> stream <= whole + more
    ensures Resynced(stream, whole) ==> Resynced(stream, whole + more)
  {
    if Resynced(stream, whole) {
      var m := |stream| - 1;
      var j :| m <= j < |whole| && whole[j].number == stream[m].number;
      assert (whole + more)[j].number == stream[m].number;
    }
  }

  /** Whatever happens after a subscription is registered, it delivers what it held
      then and everything published since, in order, until it is cancelled or falls
      behind. */
  lemma {:induction false} SubscriptionFollows(config: Config, s: Hub, id: nat, ops: seq<HubOp>)
    requires config.capacity > 0 && Registered(s) && id in s.subs
    ensures Follows(Run(config, s, ops), id, s.channels[id].Stream() + Log(config, s, ops))
  {
    if ops != [] {
      var init := ops[..|ops| - 1];
      SubscriptionFollows(config, s, id, init);
      StepFollows(config, Run(config, s, init), id, s.channels[id].Stream() + Log(config, s, init), ops[|ops| - 1]);
      assert s.channels[id].Stream() + Log(config, s, ops)
             == s.channels[id].Stream() + Log(config, s, init) + Log(config, s, ops)[|Log(config, s, init)|..];
    }
  }

  predicate Leaves(id: nat, ops: seq<HubOp>) { forall op :: op in ops && op.Attach? ==> op.id != id }

  lemma {:induction false} ReservedStaysFree(config: Config, s: Hub, id: nat, ops: seq<HubOp>)
    requires config.capacity > 0 && Registered(s) && id <= s.nextSub && id !in s.channels && Leaves(id, ops)
    ensures id <= Run(config, s, ops).nextSub && id !in Run(config, s, ops).channels
  {
    if ops != [] {
      assert ops[|ops| - 1] in ops && Leaves(id, ops[..|ops| - 1]);
      ReservedStaysFree(config, s, id, ops[..|ops| - 1]);
    }
  }

  /** Subscribe's two critical sections with anything between them. */
  function Subscribed(config: Config, s: Hub, cursor: nat, queue: int, between: seq<HubOp>): (t: Hub)
    requires config.capacity > 0 && Registered(s)
    ensures Registered(t)
  {
    Step(config, Run(config, Reserved(s), between), HubOp.Attach(s.nextSub + 1, Newer(s.entries, cursor), queue))
  }

  /** The numbers go up by one from the one after `from`. */
  predicate Continues(events: seq<Event>, from: nat) {
    forall i :: 0 <= i < |events| ==> events[i].number == from + i + 1
  }

  lemma SubscribedIsSound(config: Config, s: Hub, cursor: nat, queue: int, between: seq<HubOp>)
    requires config.capacity > 0 && Registered(s) && Leaves(s.nextSub + 1, between)
    ensures var t := Subscribed(config, s, cursor, queue, between);
            s.nextSub + 1 in t.subs && t.channels[s.nextSub + 1].Stream() == Newer(s.entries, cursor)
  {
    assert s.nextSub + 1 !in Reserved(s).channels;
    ReservedStaysFree(config, Reserved(s), s.nextSub + 1, between);
  }

  /** A subscription delivers the log from its cursor and what is published once it is
      registered, losing exactly what was published between the two sections. Its
      numbers have no gap if and only if nothing was, or nothing came after. */
  lemma SubscriptionDelivers(config: Config, s: Hub, log: seq<Event>, cursor: nat, queue: int, between: seq<HubOp>,
                             after: seq<HubOp>)
    requires config.capacity > 0 && Registered(s) && Holds(config, s, log) && Leaves(s.nextSub + 1, between)
    ensures var t := Subscribed(config, s, cursor, queue, between);
            var from, missed, live := Start(config, log, cursor), Log(config, Reserved(s), between),
                Log(config, t, after);
            && Follows(Run(config, t, after), s.nextSub + 1, log[from..] + live)
            && Numbered(log + missed + live)
            && (Continues(log[from..] + live, from) <==> missed == [] || live == [])
  {
    var id, t, from := s.nextSub + 1, Subscribed(config, s, cursor, queue, between), Start(config, log, cursor);
    var missed, live := Log(config, Reserved(s), between), Log(config, t, after);
    SubscribedIsSound(config, s, cursor, queue, between);
    NewerReadsLog(config, s, log, cursor);
    SubscriptionFollows(config, t, id, after);
    RunHolds(config, Reserved(s), log, between);
    RunHolds(config, t, log + missed, after);
    GapFreeWhen(log, missed, live, from);
  }

  /** From an empty ring: one event is published between the two sections and one after;
      the subscription gets the second only. */
  lemma PublishBetweenIsLost(config: Config, e: Event, now: Time)
    requires config.capacity > 0
    ensures var publish := HubOp.Publish(e, now);
            var t := Subscribed(config, EMPTY_HUB, 0, 2, [publish]);
            var channels := Run(config, t, [publish]).channels;
            1 in channels && channels[1].Stream() == [Stamped(config, e, 2, now)]
  {
    var publish := HubOp.Publish(e, now);
    RunOne(config, Reserved(EMPTY_HUB), publish);
    RunOne(config, Subscribed(config, EMPTY_HUB, 0, 2, [publish]), publish);
  }

  lemma RunOne(config: Config, s: Hub, op: HubOp)
    requires config.capacity > 0 && Registered(s)
    ensures Run(config, s, [op]) == Step(config, s, op)
  {
    assert Run(config, s, [op][..0]) == s;
  }

  lemma GapFreeWhen(log: seq<Event>, missed: seq<Event>, live: seq<Event>, from: nat)
    requires Numbered(log + missed + live) && from <= |log|
    ensures Continues(log[from..] + live, from) <==> missed == [] || live == []
  {
    var whole, all := log[from..] + live, log + missed + live;
    forall i | 0 <= i < |log| - from
      ensures whole[i].number == from + i + 1
    {
      assert whole[i] == log[from + i] == all[from + i];
    }
    forall i | |log| - from <= i < |whole|
      ensures whole[i].number == from + i + 1 + |missed|
    {
      assert whole[i] == live[i - (|log| - from)] == all[from + i + |missed|];
    }
    if live != [] {
      assert whole[|log| - from].number == |log| + |missed| + 1;
    }
  }

  // ---- The drain against a live consumer ---------------------------------

  /** Where Publish is while it empties a full queue: testing the length, about to take,
      about to send the notice, or past it. Only the queue's length matters. */
  datatype DrainPoint = Testing | Taking | Sending | Past

  datatype Drain = Drain(queued: nat, at: DrainPoint)

  /** The consumer does not take the ring's lock, so it may take at any point. */
  datatype Turn = Publisher | Consumer

  /** A receive from an empty channel waits; only a Publish could fill it, and the one
      that waits holds the lock. */
  predicate Stuck(d: Drain) { d.at.Taking? && d.queued == 0 }

  function DrainStep(d: Drain, turn: Turn): Drain {
    match turn
    case Consumer => if d.queued > 0 then d.(queued := d.queued - 1) else d
    case Publisher =>
      match d.at
      case Testing => d.(at := if d.queued > 0 then Taking else Sending)
      case Taking => if d.queued > 0 then Drain(d.queued - 1, Testing) else d
      case Sending => Drain(d.queued + 1, Past)
      case Past => d
  }

  function Drained(d: Drain, turns: seq<Turn>): Drain {
    if turns == [] then d else DrainStep(Drained(d, turns[..|turns| - 1]), turns[|turns| - 1])
  }

  function Publishes(turns: seq<Turn>): nat {
    if turns == [] then 0 else Publishes(turns[..|turns| - 1]) + if turns[|turns| - 1].Publisher? then 1 else 0
  }

  function Consumes(turns: seq<Turn>): nat {
    if turns == [] then 0 else Consumes(turns[..|turns| - 1]) + if turns[|turns| - 1].Consumer? then 1 else 0
  }

  /** A condition on the schedule alone. The publisher's turn at `i` is its test after
      `j` tests and takes; by then the consumer has had fewer turns than the events still
      queued, and before the publisher's next turn it has had at least as many. */
  predicate Overtakes(queued: nat, turns: seq<Turn>, i: nat, j: nat, k: nat) {
    && i < k <= |turns| && turns[i].Publisher?
    && Publishes(turns[..i]) == 2 * j && Publishes(turns[..k]) == 2 * j + 1
    && Consumes(turns[..i]) + j < queued <= Consumes(turns[..k]) + j
  }

  lemma {:induction false} CountsGrow(turns: seq<Turn>, i: nat)
    requires i <= |turns|
    ensures Publishes(turns[..i]) <= Publishes(turns) && Consumes(turns[..i]) <= Consumes(turns)
  {
    if i < |turns| {
      assert turns[..|turns| - 1][..i] == turns[..i];
      CountsGrow(turns[..|turns| - 1], i);
    } else {
      assert turns[..i] == turns;
    }
  }

  /** While the turns taken do not exhaust the queue, they determine the drain. */
  lemma {:induction false} DrainFollowsCounts(queued: nat, turns: seq<Turn>)
    requires Consumes(turns) + Publishes(turns) / 2 < queued
    ensures Drained(Drain(queued, Testing), turns)
            == Drain(queued - Consumes(turns) - Publishes(turns) / 2, if Publishes(turns) % 2 == 0 then Testing
                     else Taking)
  {
    if turns != [] {
      DrainFollowsCounts(queued, turns[..|turns| - 1]);
    }
  }

  /** And a drain still under way with events queued has not exhausted it. */
  lemma {:induction false} CountsFollowDrain(queued: nat, turns: seq<Turn>)
    requires var d := Drained(Drain(queued, Testing), turns); d.queued > 0 && (d.at.Testing? || d.at.Taking?)
    ensures Consumes(turns) + Publishes(turns) / 2 < queued
    ensures var d := Drained(Drain(queued, Testing), turns);
            d.queued == queued - Consumes(turns) - Publishes(turns) / 2
                && (d.at.Testing? <==> Publishes(turns) % 2 == 0)
  {
    if turns != [] {
      CountsFollowDrain(queued, turns[..|turns| - 1]);
    }
  }

  lemma {:induction false} LastPublish(turns: seq<Turn>) returns (i: nat)
    requires Publishes(turns) > 0
    ensures i < |turns| && turns[i].Publisher? && Publishes(turns[..i]) == Publishes(turns) - 1
    ensures Consumes(turns[..i]) <= Consumes(turns)
  {
    var n := |turns| - 1;
    if turns[n].Publisher? {
      i := n;
    } else {
      i := LastPublish(turns[..n]);
      assert turns[..n][..i] == turns[..i];
    }
  }

  lemma {:induction false} StaysStuck(d: Drain, turns: seq<Turn>, k: nat)
    requires k <= |turns| && Stuck(Drained(d, turns[..k]))
    ensures Stuck(Drained(d, turns))
  {
    if k < |turns| {
      assert turns[..|turns| - 1][..k] == turns[..k];
      StaysStuck(d, turns[..|turns| - 1], k);
    } else {
      assert turns[..k] == turns;
    }
  }

  /** Between the publisher's test and its next turn only the consumer takes. */
  lemma {:induction false} ConsumerEmpties(queued: nat, turns: seq<Turn>, i: nat, j: nat, x: nat)
    requires i < x <= |turns| && turns[i].Publisher? && Publishes(turns[..i]) == 2 * j
             && Publishes(turns[..x]) == 2 * j + 1
    requires Consumes(turns[..i]) + j < queued
    ensures Drained(Drain(queued, Testing), turns[..x])
            == Drain(if Consumes(turns[..x]) + j < queued then queued - j - Consumes(turns[..x]) else 0, Taking)
  {
    assert turns[..x][..x - 1] == turns[..x - 1];
    if x == i + 1 {
      DrainFollowsCounts(queued, turns[..i]);
    } else {
      assert turns[..i + 1][..i] == turns[..i] && turns[..x - 1][..i + 1] == turns[..i + 1];
      CountsGrow(turns[..x - 1], i + 1);
      ConsumerEmpties(queued, turns, i, j, x - 1);
    }
  }

  /** "Publish never waits" is false of the code as it stands: its drain of a queue waits,
      and then for ever, if and only if the schedule has the consumer overtake it. */
  lemma {:induction false} StuckExactlyWhen(queued: nat, turns: seq<Turn>)
    ensures Stuck(Drained(Drain(queued, Testing), turns))
            <==> exists i: nat, j: nat, k: nat :: Overtakes(queued, turns, i, j, k)
  {
    if i: nat, j: nat, k: nat :| Overtakes(queued, turns, i, j, k) {
      ConsumerEmpties(queued, turns, i, j, k);
      StaysStuck(Drain(queued, Testing), turns, k);
    }
    if Stuck(Drained(Drain(queued, Testing), turns)) {
      StuckIsOvertaken(queued, turns);
    }
  }

  lemma {:induction false} StuckIsOvertaken(queued: nat, turns: seq<Turn>)
    requires Stuck(Drained(Drain(queued, Testing), turns))
    ensures exists i: nat, j: nat, k: nat :: Overtakes(queued, turns, i, j, k)
  {
    var n := |turns| - 1;
    var init := turns[..n];
    if Stuck(Drained(Drain(queued, Testing), init)) {
      StuckIsOvertaken(queued, init);
      var i: nat, j: nat, k: nat :| Overtakes(queued, init, i, j, k);
      assert init[..i] == turns[..i] && init[..k] == turns[..k];
      assert Overtakes(queued, turns, i, j, k);
    } else {
      CountsFollowDrain(queued, init);
      var i := LastPublish(init);
      assert init[..i] == turns[..i] && turns[..n + 1] == turns;
      assert Overtakes(queued, turns, i, Publishes(init) / 2, n + 1);
    }
  }

  /** The drain's first test, then the consumer until nothing is left. */
  function TestThenConsume(takes: nat): seq<Turn> {
    if takes == 0 then [Publisher] else TestThenConsume(takes - 1) + [Consumer]
  }

  lemma {:induction false} ConsumedAfterTest(queued: nat, takes: nat)
    requires 0 < queued && takes <= queued
    ensures Drained(Drain(queued, Testing), TestThenConsume(takes)) == Drain(queued - takes, Taking)
  {
    var turns := TestThenConsume(takes);
    if takes == 0 {
      assert turns[..0] == [];
    } else {
      assert turns[..|turns| - 1] == TestThenConsume(takes - 1);
      ConsumedAfterTest(queued, takes - 1);
    }
  }

  /** Every full queue can stick so, from the drain's first test on. */
  lemma FullQueueCanStick(c: Channel)
    requires c.capacity >= 2 && Full(c)
    ensures Stuck(Drained(Drain(|c.queue|, Testing), TestThenConsume(|c.queue|)))
  {
    ConsumedAfterTest(|c.queue|, |c.queue|);
  }

  /** Left alone, the drain ends with the notice as the one queued event. */
  lemma {:induction false} UndisturbedDrainEnds(queued: nat, turns: seq<Turn>)
    requires |turns| >= 2 * queued + 2 && forall i :: 0 <= i < |turns| ==> turns[i] == Publisher
    ensures Drained(Drain(queued, Testing), turns) == Drain(1, Past)
  {
    DrainPasses(queued, turns, |turns|);
    assert turns[..|turns|] == turns;
  }

  lemma {:induction false} DrainPasses(queued: nat, turns: seq<Turn>, k: nat)
    requires k <= |turns| && forall i :: 0 <= i < |turns| ==> turns[i] == Publisher
    ensures Drained(Drain(queued, Testing), turns[..k]) ==
            if k <= 2 * queued then Drain(queued - k / 2, if k % 2 == 0 then Testing else Taking)
            else if k == 2 * queued + 1 then Drain(0, Sending) else Drain(1, Past)
  {
    if k > 0 {
      assert turns[..k][..k - 1] == turns[..k - 1];
      DrainPasses(queued, turns, k - 1);
    }
  }

  // ---- What a published event is, field by field -------------------------

  /** The event just published is the newest of the log: numbered next, marked with this
      stream, and otherwise as given, where what was left blank is filled in. */
  lemma PublishedIsNewest(config: Config, s: Hub, e: Event, now: Time)
    requires config.capacity > 0 && Registered(s)
    ensures var t := Published(config, s, e, now);
            && t.next == s.next + 1 && t.entries != []
            && var newest := t.entries[|t.entries| - 1];
            && newest.number == s.next && newest.schemaVersion == 1
            && newest.streamNodeId == config.nodeId && newest.streamBootId == config.bootId
            && newest.kind == e.kind && newest.entityKey == e.entityKey && newest.revision == e.revision
            && newest.payload == e.payload && newest.delivery == e.delivery
            && newest.eventId == (if e.eventId != "" then e.eventId
                                  else "evt-" + config.nodeId + "-" + FormatNat(s.next))
            && newest.originNodeId == (if e.originNodeId != "" then e.originNodeId else config.nodeId)
            && newest.occurredAt == (if e.occurredAt != ZERO_TIME then e.occurredAt else now)
  {}

  /** A slow subscriber's last event says so, under the number that found no room. */
  lemma SlowSubscriberIsTold(config: Config, s: Hub, e: Event, now: Time, id: nat)
    requires config.capacity > 0 && Registered(s) && id in s.subs
    requires |s.channels[id].queue| >= s.channels[id].capacity
    ensures var t := Published(config, s, e, now);
            && id !in t.subs && t.dropped >= s.dropped + 1 && !t.channels[id].open && |t.channels[id].queue| == 1
            && var notice := t.channels[id].queue[0];
            && notice.kind == "RESYNC_REQUIRED" && notice.number == s.next && notice.originNodeId == config.nodeId
            && notice.streamNodeId == config.nodeId && notice.streamBootId == config.bootId
            && notice.eventId == "resync-" + config.nodeId + "-" + FormatNat(s.next) && notice.occurredAt == now
  {
    assert id in Slow(s.channels, s.subs);
  }

  /** A page without a limit holds 200 events at most. */
  lemma DefaultPage(config: Config, s: Hub, log: seq<Event>, cursor: nat)
    requires config.capacity > 0 && Holds(config, s, log) && SinceOf(s, cursor, 0).Page?
    ensures var from := Start(config, log, cursor);
            SinceOf(s, cursor, 0).events == log[from..if from + 200 < |log| then from + 200 else |log|]
  {
    SinceReadsLog(config, s, log, cursor, 0);
  }

  /** Recent answers from the whole log too: its last events, as many as asked for and kept. */
  lemma RecentReadsLog(config: Config, s: Hub, log: seq<Event>, limit: int)
    requires config.capacity > 0 && Holds(config, s, log)
    ensures var kept := if |log| < config.capacity then |log| else config.capacity;
            var n := if limit <= 0 || limit > kept then kept else limit;
            RecentOf(s, limit) == log[|log| - n..]
  {
    assert |s.entries| == if |log| < config.capacity then |log| else config.capacity;
  }

  /** A new subscription holds what was pending and has room for the queue asked for, and
      for one event more than is pending, and for two in any case. */
  lemma AttachedHasRoom(s: Hub, id: nat, pending: seq<Event>, queue: int)
    ensures var t := Attached(s, id, pending, queue);
            && id in t.subs && t.channels[id].queue == pending && t.channels[id].taken == [] && t.channels[id].open
            && t.channels[id].capacity >= 2 && t.channels[id].capacity >= queue
            && t.channels[id].capacity >= |pending| + 1
            && (t.channels[id].capacity == 2 || t.channels[id].capacity == queue
                || t.channels[id].capacity == |pending| + 1)
  {}
}
