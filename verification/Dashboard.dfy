/** The administration page's reducer (frontend-admin/src/state/dashboard.ts):
    counters kept up to date event by event, and a bounded event list. */
module Dashboard {
  import opened Ordering
  import opened Versions
  import opened Model

  datatype Card = Card(service: string, instanceId: string, status: Status, version: Version, details: string) {
    /** The key of the instance map. */
    function Text(): string { service + "/" + instanceId }
  }

  datatype Peer = Peer(nodeId: string, details: string)

  datatype Edge = Edge(source: string, target: string, state: string)

  datatype Notice = Notice(
    number: nat, bootId: string, attemptId: string, kind: string, entityKey: string, occurredAt: string,
    card: Option<Card>, peer: Option<Peer>, node: Option<Peer>, edges: Option<seq<Edge>>)

  datatype Summary = Summary(services: int, instances: int, active: int, delayed: int, evicted: int, nodes: int,
                             gossipRate: real, updatedAt: string)

  /** What the page shows about the cluster. */
  datatype Board = Board(instances: map<string, Card>, serviceCounts: map<string, int>, nodes: map<string, Peer>,
                         edges: seq<Edge>, summary: Summary)

  datatype Page = Page(board: Board, events: seq<Notice>, cursor: nat, revision: string, connection: string,
                       loading: bool, error: Option<string>)

  const MOST_EVENTS := 500
  const INSTANCE_REMOVED := "INSTANCE_REMOVED"

  /** String.prototype.localeCompare, which depends on the browser. */
  type Locale = (string, string) -> int

  function CompareCards(locale: Locale, a: Version, b: Version): int {
    if a.physical != b.physical then a.physical - b.physical
    else if a.logical != b.logical then a.logical - b.logical
    else locale(a.origin, b.origin)
  }

  function Tally(s: Summary, status: Status): int {
    match status
    case ACTIVE => s.active
    case DELAYED => s.delayed
    case EVICTED => s.evicted
  }

  function Bump(s: Summary, status: Status, d: int): Summary {
    match status
    case ACTIVE => s.(active := s.active + d)
    case DELAYED => s.(delayed := s.delayed + d)
    case EVICTED => s.(evicted := s.evicted + d)
  }

  function CountOf(counts: map<string, int>, service: string, absent: int): int {
    if service in counts then counts[service] else absent
  }

  // ---- One event ---------------------------------------------------------

  function Added(b: Board, card: Card, at: string): Board {
    var counts := b.serviceCounts[card.service := CountOf(b.serviceCounts, card.service, 0) + 1];
    var s := b.summary.(updatedAt := at, instances := b.summary.instances + 1);
    b.(instances := b.instances[card.Text() := card], serviceCounts := counts,
       summary := Bump(s, card.status, 1).(services := |counts|))
  }

  function Replaced(b: Board, card: Card, at: string): Board
    requires card.Text() in b.instances
  {
    var held, s := b.instances[card.Text()], b.summary.(updatedAt := at);
    b.(instances := b.instances[card.Text() := card],
       summary := if held.status != card.status then Bump(Bump(s, held.status, -1), card.status, 1) else s)
  }

  function Lowered(counts: map<string, int>, service: string): map<string, int> {
    var left := CountOf(counts, service, 1) - 1;
    if left <= 0 then counts - {service} else counts[service := left]
  }

  function Removed(b: Board, key: string, at: string): Board
    requires key in b.instances
  {
    var held := b.instances[key];
    var counts := Lowered(b.serviceCounts, held.service);
    var s := b.summary.(updatedAt := at, instances := b.summary.instances - 1);
    b.(instances := b.instances - {key}, serviceCounts := counts,
       summary := Bump(s, held.status, -1).(services := |counts|))
  }

  predicate Newer(locale: Locale, b: Board, card: Card) {
    card.Text() in b.instances && CompareCards(locale, b.instances[card.Text()].version, card.version) < 0
  }

  function WithCard(locale: Locale, b: Board, e: Notice): Board {
    match e.card
    case Some(card) =>
      if card.Text() !in b.instances then Added(b, card, e.occurredAt)
      else if Newer(locale, b, card) then Replaced(b, card, e.occurredAt)
      else b
    case None =>
      if e.kind == INSTANCE_REMOVED && e.entityKey in b.instances then Removed(b, e.entityKey, e.occurredAt) else b
  }

  function WithPeer(b: Board, e: Notice): Board {
    var member := if e.peer.Some? then e.peer else e.node;
    if member.None? then b
    else
      var nodes := b.nodes[member.value.nodeId := member.value];
      b.(nodes := nodes, summary := b.summary.(nodes := |nodes|, updatedAt := e.occurredAt))
  }

  function Absorbed(locale: Locale, b: Board, e: Notice): Board {
    var c := WithPeer(WithCard(locale, b, e), e);
    if e.edges.Some? then c.(edges := e.edges.value) else c
  }

  // ---- A batch -----------------------------------------------------------

  /** The loop's variables. */
  datatype Work = Work(board: Board, cursor: nat, accepted: seq<Notice>)

  function Taken(locale: Locale, w: Work, e: Notice): Work {
    if e.number <= w.cursor then w else Work(Absorbed(locale, w.board, e), e.number, w.accepted + [e])
  }

  function Worked(locale: Locale, w: Work, events: seq<Notice>): Work {
    if events == [] then w else Taken(locale, Worked(locale, w, events[..|events| - 1]), events[|events| - 1])
  }

  predicate Ascending(events: seq<Notice>) {
    |events| < 2 || (events[|events| - 2].number <= events[|events| - 1].number && Ascending(events[..|events| - 1]))
  }

  /** Array.prototype.sort by number, which is stable. */
  function Ordered(events: seq<Notice>): (r: seq<Notice>)
    ensures Ascending(r)
  {
    if events == [] then []
    else
      Inserted(Ordered(events[..|events| - 1]), events[|events| - 1])
  }

  function Inserted(events: seq<Notice>, e: Notice): (r: seq<Notice>)
    requires Ascending(events)
    ensures Ascending(r)
    ensures r != [] && (r[|r| - 1] == e || (events != [] && r[|r| - 1] == events[|events| - 1]))
  {
    if events == [] then [e]
    else
      var init, last := events[..|events| - 1], events[|events| - 1];
      if last.number <= e.number then
        assert (events + [e])[..|events|] == events;
        events + [e]
      else
        var r := Inserted(init, e);
        assert (r + [last])[..|r|] == r;
        r + [last]
  }

  lemma {:induction false} InsertedPermutes(events: seq<Notice>, e: Notice)
    requires Ascending(events)
    ensures multiset(Inserted(events, e)) == multiset(events) + multiset{e}
  {
    if events != [] {
      var init, last := events[..|events| - 1], events[|events| - 1];
      assert events == init + [last];
      if last.number > e.number {
        InsertedPermutes(init, e);
      }
    }
  }

  lemma {:induction false} OrderedPermutes(events: seq<Notice>)
    ensures multiset(Ordered(events)) == multiset(events)
  {
    if events != [] {
      var init, last := events[..|events| - 1], events[|events| - 1];
      assert events == init + [last];
      OrderedPermutes(init);
      InsertedPermutes(Ordered(init), last);
    }
  }

  function EventKey(e: Notice): string { e.bootId + ":" + FormatNat(e.number) + ":" + e.attemptId }

  function Fresh(accepted: seq<Notice>, listed: seq<Notice>): seq<Notice> {
    if accepted == [] then []
    else
      var init, e := accepted[..|accepted| - 1], accepted[|accepted| - 1];
      if exists i :: 0 <= i < |listed| && EventKey(listed[i]) == EventKey(e) then Fresh(init, listed)
         else Fresh(init, listed) + [e]
  }

  function Reversed(events: seq<Notice>): (r: seq<Notice>)
    ensures |r| == |events|
  {
    if events == [] then [] else [events[|events| - 1]] + Reversed(events[..|events| - 1])
  }

  function Newest(events: seq<Notice>): seq<Notice> { if |events| <= MOST_EVENTS then events
                                                     else events[..MOST_EVENTS] }

  function WithEvents(locale: Locale, page: Page, events: seq<Notice>): Page {
    var w := Worked(locale, Work(page.board, page.cursor, []), Ordered(events));
    if w.accepted == [] then page
    else page.(board := w.board, events := Newest(Reversed(Fresh(w.accepted, page.events)) + page.events),
               cursor := w.cursor)
  }

  // ---- The reducer's loops -----------------------------------------------

  method ReduceEvents(locale: Locale, page: Page, events: seq<Notice>) returns (next: Page)
    ensures next == WithEvents(locale, page, events)
  {
    if |events| == 0 {
      return page;
    }
    var ordered := Ordered(events);
    var instances, serviceCounts, nodes, edges, summary :=
      page.board.instances, page.board.serviceCounts, page.board.nodes, page.board.edges, page.board.summary;
    var cursor := page.cursor;
    var accepted: seq<Notice> := [];
    for i := 0 to |ordered|
      invariant Work(Board(instances, serviceCounts, nodes, edges, summary), cursor, accepted)
                == Worked(locale, Work(page.board, page.cursor, []), ordered[..i])
    {
      assert ordered[..i + 1][..i] == ordered[..i];
      var event := ordered[i];
      if event.number <= cursor {
        continue;
      }
      cursor := event.number;
      accepted := accepted + [event];
      instances, serviceCounts, nodes, edges, summary :=
          ReduceOne(locale, event, Board(instances, serviceCounts, nodes, edges, summary));
    }
    assert ordered[..|ordered|] == ordered;
    if |accepted| == 0 {
      return page;
    }
    next := page.(board := Board(instances, serviceCounts, nodes, edges, summary),
                  events := Newest(Reversed(Fresh(accepted, page.events)) + page.events), cursor := cursor);
  }

  method ReduceOne(locale: Locale, event: Notice, b: Board)
    returns (instances: map<string, Card>, serviceCounts: map<string, int>, nodes: map<string, Peer>, edges: seq<Edge>,
             summary: Summary)
    ensures Board(instances, serviceCounts, nodes, edges, summary) == Absorbed(locale, b, event)
  {
    nodes, edges := b.nodes, b.edges;
    instances, serviceCounts, summary := ReduceCard(locale, event, b);
    var member := if event.peer.Some? then event.peer else event.node;
    if member.Some? {
      nodes := nodes[member.value.nodeId := member.value];
      summary := summary.(nodes := |nodes|, updatedAt := event.occurredAt);
    }
    if event.edges.Some? {
      edges := event.edges.value;
    }
  }

  method ReduceCard(locale: Locale, event: Notice, b: Board)
    returns (instances: map<string, Card>, serviceCounts: map<string, int>, summary: Summary)
    ensures b.(instances := instances, serviceCounts := serviceCounts, summary := summary) == WithCard(locale, b, event)
  {
    instances, serviceCounts, summary := b.instances, b.serviceCounts, b.summary;
    match event.card
    case Some(incoming) =>
      var key := incoming.Text();
      if key !in instances {
        instances, serviceCounts, summary := ReduceNewCard(incoming, event.occurredAt, b);
      } else if CompareCards(locale, instances[key].version, incoming.version) < 0 {
        var previous := instances[key];
        summary := summary.(updatedAt := event.occurredAt);
        instances := instances[key := incoming];
        if previous.status != incoming.status {
          summary := Bump(Bump(summary, previous.status, -1), incoming.status, 1);
        }
      }
    case None =>
      if event.kind == INSTANCE_REMOVED && event.entityKey in instances {
        instances, serviceCounts, summary := ReduceRemoval(event.entityKey, event.occurredAt, b);
      }
  }

  method ReduceNewCard(incoming: Card, at: string, b: Board)
    returns (instances: map<string, Card>, serviceCounts: map<string, int>, summary: Summary)
    ensures b.(instances := instances, serviceCounts := serviceCounts, summary := summary) == Added(b, incoming, at)
  {
    summary := b.summary.(updatedAt := at);
    instances := b.instances[incoming.Text() := incoming];
    serviceCounts := b.serviceCounts[incoming.service := CountOf(b.serviceCounts, incoming.service, 0) + 1];
    summary := summary.(instances := summary.instances + 1);
    summary := Bump(summary, incoming.status, 1);
    summary := summary.(services := |serviceCounts|);
  }

  method ReduceRemoval(key: string, at: string, b: Board)
    returns (instances: map<string, Card>, serviceCounts: map<string, int>, summary: Summary)
    requires key in b.instances
    ensures b.(instances := instances, serviceCounts := serviceCounts, summary := summary) == Removed(b, key, at)
  {
    var previous := b.instances[key];
    summary := b.summary.(updatedAt := at);
    instances := b.instances - {key};
    summary := summary.(instances := summary.instances - 1);
    summary := Bump(summary, previous.status, -1);
    serviceCounts := LowerCount(b.serviceCounts, previous.service);
    summary := summary.(services := |serviceCounts|);
  }

  method LowerCount(counts: map<string, int>, service: string) returns (lowered: map<string, int>)
    ensures lowered == Lowered(counts, service)
  {
    var count := CountOf(counts, service, 1) - 1;
    if count <= 0 {
      lowered := counts - {service};
    } else {
      lowered := counts[service := count];
    }
  }

  // ---- Counters ----------------------------------------------------------

  function WithStatus(m: map<string, Card>, status: Status): set<string> { set k | k in m && m[k].status == status }

  function OfService(m: map<string, Card>, service: string): set<string> { set k | k in m && m[k].service == service }

  /** Per service: as many as there are, and no entry for a service without any. */
  ghost predicate ServicesRight(m: map<string, Card>, counts: map<string, int>) {
    && (forall service {:trigger OfService(m, service)} :: CountOf(counts, service, 0) == |OfService(m, service)|)
    && (forall service :: service in counts ==> counts[service] > 0)
  }

  ghost predicate StatusesRight(m: map<string, Card>, s: Summary) {
    s.instances == |m| && forall status {:trigger WithStatus(m, status)} :: Tally(s, status) == |WithStatus(m, status)|
  }

  predicate Keyed(m: map<string, Card>, k: string) { k in m ==> k == m[k].Text() }

  ghost predicate KeysRight(m: map<string, Card>) { forall k {:trigger Keyed(m, k)} :: Keyed(m, k) }

  /** Every counter equals what counting the instance map afresh gives. */
  ghost predicate Consistent(b: Board) {
    && KeysRight(b.instances) && StatusesRight(b.instances, b.summary) && ServicesRight(b.instances, b.serviceCounts)
    && b.summary.services == |b.serviceCounts| && b.summary.nodes == |b.nodes|
  }

  /** A replacement that changes the service under one key. */
  predicate Renames(locale: Locale, b: Board, e: Notice) {
    e.card.Some? && Newer(locale, b, e.card.value) && b.instances[e.card.value.Text()].service != e.card.value.service
  }

  lemma Recount(was: set<string>, now: set<string>, k: string)
    requires now - {k} == was - {k}
    ensures |now| == |was| - (if k in was then 1 else 0) + (if k in now then 1 else 0)
  {
    assert now == (now - {k}) + if k in now then {k} else {};
    assert was == (was - {k}) + if k in was then {k} else {};
  }

  ghost predicate OnlyAt(m: map<string, Card>, n: map<string, Card>, k: string) {
    forall o :: o != k ==> (o in m <==> o in n) && (o in m ==> m[o] == n[o])
  }

  /** Maps that differ under one key differ by at most one in every recount. */
  lemma RecountStatus(m: map<string, Card>, n: map<string, Card>, k: string, status: Status)
    requires OnlyAt(m, n, k)
    ensures |WithStatus(n, status)| == |WithStatus(m, status)|
              - (if k in m && m[k].status == status then 1 else 0) + (if k in n && n[k].status == status then 1 else 0)
  {
    Recount(WithStatus(m, status), WithStatus(n, status), k);
  }

  lemma RecountService(m: map<string, Card>, n: map<string, Card>, k: string, service: string)
    requires OnlyAt(m, n, k)
    ensures |OfService(n, service)| == |OfService(m, service)|
              - (if k in m && m[k].service == service then 1 else 0)
                  + (if k in n && n[k].service == service then 1 else 0)
  {
    Recount(OfService(m, service), OfService(n, service), k);
  }

  lemma RecountAll(m: map<string, Card>, n: map<string, Card>, k: string)
    requires OnlyAt(m, n, k)
    ensures |n| == |m| - (if k in m then 1 else 0) + (if k in n then 1 else 0)
  {
    Recount(m.Keys, n.Keys, k);
  }

  // ---- One event keeps the counters --------------------------------------

  function One(m: map<string, Card>, k: string, status: Status): int { if k in m
            && m[k].status == status then 1 else 0 }

  function OneOf(m: map<string, Card>, k: string, service: string): int { if k in m
            && m[k].service == service then 1 else 0 }

  lemma StatusesFollow(m: map<string, Card>, n: map<string, Card>, k: string, s: Summary, t: Summary)
    requires OnlyAt(m, n, k) && StatusesRight(m, s)
    requires t.instances == s.instances - (if k in m then 1 else 0) + (if k in n then 1 else 0)
    requires forall status :: Tally(t, status) == Tally(s, status) - One(m, k, status) + One(n, k, status)
    ensures StatusesRight(n, t)
  {
    RecountAll(m, n, k);
    forall status
      ensures Tally(t, status) == |WithStatus(n, status)|
    {
      RecountStatus(m, n, k, status);
    }
  }

  lemma ServicesFollow(m: map<string, Card>, n: map<string, Card>, k: string, counts: map<string, int>,
                       more: map<string, int>)
    requires OnlyAt(m, n, k) && ServicesRight(m, counts)
    requires forall service ::
             CountOf(more, service, 0) == CountOf(counts, service, 0) - OneOf(m, k, service) + OneOf(n, k, service)
    requires forall service :: service in more ==> more[service] > 0
    ensures ServicesRight(n, more)
  {
    forall service
      ensures CountOf(more, service, 0) == |OfService(n, service)|
    {
      RecountService(m, n, k, service);
    }
  }

  lemma CountsArePositive(m: map<string, Card>, counts: map<string, int>, k: string)
    requires ServicesRight(m, counts) && k in m
    ensures CountOf(counts, m[k].service, 0) > 0
  {
    assert k in OfService(m, m[k].service);
  }

  lemma ServicesAfterAdding(m: map<string, Card>, counts: map<string, int>, card: Card)
    requires ServicesRight(m, counts) && card.Text() !in m
    ensures ServicesRight(m[card.Text() := card], counts[card.service := CountOf(counts, card.service, 0) + 1])
  {
    var n, more := m[card.Text() := card], counts[card.service := CountOf(counts, card.service, 0) + 1];
    ServicesFollow(m, n, card.Text(), counts, more);
  }

  lemma ServicesAfterRemoving(m: map<string, Card>, counts: map<string, int>, k: string)
    requires ServicesRight(m, counts) && k in m
    ensures ServicesRight(m - {k}, Lowered(counts, m[k].service))
  {
    CountsArePositive(m, counts, k);
    ServicesFollow(m, m - {k}, k, counts, Lowered(counts, m[k].service));
  }

  lemma ServicesAfterReplacing(m: map<string, Card>, counts: map<string, int>, card: Card)
    requires ServicesRight(m, counts) && card.Text() in m
    ensures ServicesRight(m[card.Text() := card], counts) <==> m[card.Text()].service == card.service
  {
    var k, n := card.Text(), m[card.Text() := card];
    if m[k].service == card.service {
      ServicesFollow(m, n, k, counts, counts);
    } else {
      RecountService(m, n, k, card.service);
    }
  }

  lemma StatusesAfterAdding(m: map<string, Card>, s: Summary, card: Card, at: string, services: int)
    requires StatusesRight(m, s) && card.Text() !in m
    ensures StatusesRight(m[card.Text() := card], Bump(s.(updatedAt := at, instances := s.instances + 1), card.status,
                                                       1).(services := services))
  {
    var k := card.Text();
    StatusesFollow(m, m[k := card], k, s, Bump(s.(updatedAt := at, instances := s.instances + 1), card.status,
                                               1).(services := services));
  }

  lemma StatusesAfterRemoving(m: map<string, Card>, s: Summary, k: string, at: string, services: int)
    requires StatusesRight(m, s) && k in m
    ensures StatusesRight(m - {k}, Bump(s.(updatedAt := at, instances := s.instances - 1), m[k].status,
                                        -1).(services := services))
  {
    StatusesFollow(m, m - {k}, k, s, Bump(s.(updatedAt := at, instances := s.instances - 1), m[k].status,
                                          -1).(services := services));
  }

  lemma KeysAfterStoring(m: map<string, Card>, card: Card)
    requires KeysRight(m)
    ensures KeysRight(m[card.Text() := card])
  {
    var n := m[card.Text() := card];
    forall k
      ensures Keyed(n, k)
    {
      assert Keyed(m, k);
    }
  }

  lemma KeysAfterRemoving(m: map<string, Card>, key: string)
    requires KeysRight(m)
    ensures KeysRight(m - {key})
  {
    var n := m - {key};
    forall k
      ensures Keyed(n, k)
    {
      assert Keyed(m, k);
    }
  }

  lemma AddedKeeps(b: Board, card: Card, at: string)
    requires Consistent(b) && card.Text() !in b.instances
    ensures Consistent(Added(b, card, at))
  {
    StatusesAfterAdding(b.instances, b.summary, card, at, |Added(b, card, at).serviceCounts|);
    KeysAfterStoring(b.instances, card);
    ServicesAfterAdding(b.instances, b.serviceCounts, card);
  }

  lemma RemovedKeeps(b: Board, k: string, at: string)
    requires Consistent(b) && k in b.instances
    ensures Consistent(Removed(b, k, at))
  {
    var c := Removed(b, k, at);
    assert StatusesRight(c.instances, c.summary) by {
      StatusesAfterRemoving(b.instances, b.summary, k, at, |c.serviceCounts|);
    }
    assert KeysRight(c.instances) by {
      KeysAfterRemoving(b.instances, k);
    }
    assert ServicesRight(c.instances, c.serviceCounts) by {
      ServicesAfterRemoving(b.instances, b.serviceCounts, k);
    }
  }

  /** A replacement never touches the per-service counts, so it keeps the counters
      exactly when the service is the same. */
  lemma ReplacedKeeps(b: Board, card: Card, at: string)
    requires Consistent(b) && card.Text() in b.instances
    ensures Consistent(Replaced(b, card, at)) <==> b.instances[card.Text()].service == card.service
  {
    var c := Replaced(b, card, at);
    StatusesFollow(b.instances, c.instances, card.Text(), b.summary, c.summary);
    KeysAfterStoring(b.instances, card);
    ServicesAfterReplacing(b.instances, b.serviceCounts, card);
  }

  /** One event keeps every counter exact if and only if it does not change the
      service of a card under the same key. */
  lemma EventKeepsCounters(locale: Locale, b: Board, e: Notice)
    requires Consistent(b)
    ensures Consistent(Absorbed(locale, b, e)) <==> !Renames(locale, b, e)
  {
    var c := WithCard(locale, b, e);
    match e.card {
      case Some(card) =>
        if card.Text() !in b.instances {
          AddedKeeps(b, card, e.occurredAt);
        } else {
          ReplacedKeeps(b, card, e.occurredAt);
        }
      case None =>
        if e.kind == INSTANCE_REMOVED && e.entityKey in b.instances {
          RemovedKeeps(b, e.entityKey, e.occurredAt);
        }
    }
    PeerKeeps(c, e);
  }

  lemma PeerKeeps(c: Board, e: Notice)
    requires c.summary.nodes == |c.nodes|
    ensures Consistent(WithPeer(c, e)) <==> Consistent(c)
  {
    var d := WithPeer(c, e);
    assert forall status :: Tally(d.summary, status) == Tally(c.summary, status);
  }

  // ---- Any sequence of batches -------------------------------------------

  predicate Tidy(card: Card) { '/' !in card.service }

  ghost predicate TidyBoard(b: Board) { forall k :: k in b.instances ==> Tidy(b.instances[k]) }

  ghost predicate TidyBatch(events: seq<Notice>) { forall e :: e in events && e.card.Some? ==> Tidy(e.card.value) }

  /** A service name without a slash is fixed by the key. */
  lemma TidyNeverRenames(locale: Locale, b: Board, e: Notice)
    requires KeysRight(b.instances) && TidyBoard(b) && (e.card.Some? ==> Tidy(e.card.value))
    ensures !Renames(locale, b, e)
  {
    if e.card.Some? && e.card.value.Text() in b.instances {
      var card, held := e.card.value, b.instances[e.card.value.Text()];
      assert Keyed(b.instances, card.Text());
      var x, y := Key(card.service, card.instanceId), Key(held.service, held.instanceId);
      SlashEndsService(x, y);
      SlashEndsService(y, x);
      assert x.Text()[..|x.service|] == x.service && y.Text()[..|y.service|] == y.service;
    }
  }

  lemma {:induction false} BatchKeepsCounters(locale: Locale, w: Work, events: seq<Notice>)
    requires Consistent(w.board) && TidyBoard(w.board) && TidyBatch(events)
    ensures Consistent(Worked(locale, w, events).board) && TidyBoard(Worked(locale, w, events).board)
  {
    if events != [] {
      var init, e := events[..|events| - 1], events[|events| - 1];
      assert e in events;
      BatchKeepsCounters(locale, w, init);
      TidyNeverRenames(locale, Worked(locale, w, init).board, e);
      EventKeepsCounters(locale, Worked(locale, w, init).board, e);
    }
  }

  function Batches(locale: Locale, page: Page, batches: seq<seq<Notice>>): Page {
    if batches == [] then page else WithEvents(locale, Batches(locale, page, batches[..|batches| - 1]),
                                               batches[|batches| - 1])
  }

  /** From a consistent page, after any sequence of batches in any order with any
      duplicates, every counter equals a fresh count of the instances shown. */
  lemma {:induction false} CountersAgree(locale: Locale, page: Page, batches: seq<seq<Notice>>)
    requires Consistent(page.board) && TidyBoard(page.board) && forall i :: 0 <= i < |batches| ==> TidyBatch(batches[i])
    ensures Consistent(Batches(locale, page, batches).board) && TidyBoard(Batches(locale, page, batches).board)
  {
    if batches != [] {
      var n := |batches| - 1;
      CountersAgree(locale, page, batches[..n]);
      var before := Batches(locale, page, batches[..n]);
      OrderedPermutes(batches[n]);
      assert forall e :: e in Ordered(batches[n]) ==> e in multiset(Ordered(batches[n]));
      BatchKeepsCounters(locale, Work(before.board, before.cursor, []), Ordered(batches[n]));
    }
  }

  /** With slashes in names the per-service counts do go wrong: two instances share
      the key "a/b/c", and the replacement moves no count. */
  lemma SlashesBreakCounts(locale: Locale)
    ensures var was, now := Card("a", "b/c", ACTIVE, Version(1, 0, "n"), ""),
            Card("a/b", "c", ACTIVE, Version(2, 0, "n"), "");
            var b := Added(Board(map[], map[], map[], [], Summary(0, 0, 0, 0, 0, 0, 0.0, "")), was, "t");
            var e := Notice(1, "boot", "", "INSTANCE_REGISTERED", "", "t", Some(now), None, None, None);
            && Consistent(b)
            && !Consistent(Absorbed(locale, b, e))
  {
    var was, now := Card("a", "b/c", ACTIVE, Version(1, 0, "n"), ""), Card("a/b", "c", ACTIVE, Version(2, 0, "n"), "");
    var empty := Board(map[], map[], map[], [], Summary(0, 0, 0, 0, 0, 0, 0.0, ""));
    var e := Notice(1, "boot", "", "INSTANCE_REGISTERED", "", "t", Some(now), None, None, None);
    AddedKeeps(empty, was, "t");
    assert was.Text() == now.Text() == "a/b/c";
    EventKeepsCounters(locale, Added(empty, was, "t"), e);
  }

  // ---- Replay ------------------------------------------------------------

  ghost predicate Behind(events: seq<Notice>, cursor: nat) { forall e :: e in events ==> e.number <= cursor }

  /** The cursor passes everything it was shown. */
  lemma {:induction false} CursorPasses(locale: Locale, w: Work, events: seq<Notice>)
    ensures var v := Worked(locale, w, events);
            v.cursor >= w.cursor && Behind(events, v.cursor)
                && (Behind(w.accepted, w.cursor) ==> Behind(v.accepted, v.cursor))
  {
    if events != [] {
      var init, e := events[..|events| - 1], events[|events| - 1];
      assert events == init + [e];
      CursorPasses(locale, w, init);
    }
  }

  lemma {:induction false} NothingNew(locale: Locale, w: Work, events: seq<Notice>)
    requires Behind(events, w.cursor)
    ensures Worked(locale, w, events) == w
  {
    if events != [] {
      assert events[|events| - 1] in events;
      NothingNew(locale, w, events[..|events| - 1]);
    }
  }

  lemma OrderedKeepsEvents(events: seq<Notice>, e: Notice)
    ensures e in Ordered(events) <==> e in events
  {
    OrderedPermutes(events);
    assert e in multiset(Ordered(events)) <==> e in multiset(events);
  }

  /** Whatever was part of an accepted batch changes nothing when it comes again. */
  lemma ReplayIsNoOp(locale: Locale, page: Page, events: seq<Notice>, again: seq<Notice>)
    requires forall e :: e in again ==> e in events
    ensures WithEvents(locale, WithEvents(locale, page, events), again) == WithEvents(locale, page, events)
  {
    var w := Worked(locale, Work(page.board, page.cursor, []), Ordered(events));
    var next := WithEvents(locale, page, events);
    CursorPasses(locale, Work(page.board, page.cursor, []), Ordered(events));
    NothingAccepted(locale, Work(page.board, page.cursor, []), Ordered(events));
    forall e | e in Ordered(again)
      ensures e.number <= next.cursor
    {
      OrderedKeepsEvents(again, e);
      OrderedKeepsEvents(events, e);
    }
    NothingNew(locale, Work(next.board, next.cursor, []), Ordered(again));
  }

  lemma {:induction false} NothingAccepted(locale: Locale, w: Work, events: seq<Notice>)
    ensures w.accepted <= Worked(locale, w, events).accepted
    ensures Worked(locale, w, events).accepted == w.accepted ==> Worked(locale, w, events) == w
  {
    if events != [] {
      NothingAccepted(locale, w, events[..|events| - 1]);
    }
  }

  // ---- Splitting a batch -------------------------------------------------

  lemma LastStays(events: seq<Notice>, e: Notice)
    requires Ascending(events) && (events != [] ==> events[|events| - 1].number <= e.number)
    ensures Inserted(events, e) == events + [e]
  {}

  lemma {:induction false} SortedStays(events: seq<Notice>)
    requires Ascending(events)
    ensures Ordered(events) == events
  {
    if events != [] {
      var n := |events| - 1;
      SortedStays(events[..n]);
      LastStays(events[..n], events[n]);
      assert events == events[..n] + [events[n]];
    }
  }

  lemma {:induction false} AscendingPrefix(a: seq<Notice>, b: seq<Notice>)
    requires Ascending(a + b)
    ensures Ascending(a)
  {
    if b == [] {
      assert a + b == a;
    } else {
      assert (a + b)[..|a + b| - 1] == a + b[..|b| - 1];
      AscendingPrefix(a, b[..|b| - 1]);
    }
  }

  lemma {:induction false} AscendingSuffix(a: seq<Notice>, b: seq<Notice>)
    requires Ascending(a + b)
    ensures Ascending(b)
  {
    if |b| >= 2 {
      assert (a + b)[..|a + b| - 1] == a + b[..|b| - 1];
      AscendingSuffix(a, b[..|b| - 1]);
    }
  }

  lemma {:induction false} WorkedInTwo(locale: Locale, w: Work, a: seq<Notice>, b: seq<Notice>)
    ensures Worked(locale, w, a + b) == Worked(locale, Worked(locale, w, a), b)
  {
    if b == [] {
      assert a + b == a;
    } else {
      assert (a + b)[..|a + b| - 1] == a + b[..|b| - 1];
      WorkedInTwo(locale, w, a, b[..|b| - 1]);
    }
  }

  /** What a batch does to the board does not depend on what was accepted before. */
  lemma {:induction false} AcceptedAppends(locale: Locale, w: Work, events: seq<Notice>)
    ensures var v := Worked(locale, w.(accepted := []), events);
            Worked(locale, w, events) == v.(accepted := w.accepted + v.accepted)
  {
    if events != [] {
      AcceptedAppends(locale, w, events[..|events| - 1]);
    }
  }

  predicate AllAbove(events: seq<Notice>, cursor: nat) { forall i :: 0 <= i < |events| ==> events[i].number > cursor }

  lemma {:induction false} AcceptedAreNew(locale: Locale, w: Work, cursor: nat, events: seq<Notice>)
    requires AllAbove(w.accepted, cursor) && w.cursor >= cursor && PlainBoots(w.accepted) && PlainBoots(events)
    ensures var v := Worked(locale, w, events);
             AllAbove(v.accepted, cursor) && v.cursor >= cursor && PlainBoots(v.accepted)
  {
    if events != [] {
      AcceptedAreNew(locale, w, cursor, events[..|events| - 1]);
    }
  }

  predicate PlainBoots(events: seq<Notice>) { forall i :: 0 <= i < |events| ==> ':' !in events[i].bootId }

  lemma CutAtColon(x: string, y: string, restX: string, restY: string)
    requires x + ":" + restX == y + ":" + restY && ':' !in y
    ensures |y| <= |x|
  {
    assert (x + ":" + restX)[|x|] == ':';
    assert forall i :: 0 <= i < |y| ==> (y + ":" + restY)[i] == y[i] && y[i] in y;
  }

  /** Two listed events with one key carry one number. */
  lemma EventKeyFixesNumber(a: Notice, b: Notice)
    requires EventKey(a) == EventKey(b) && ':' !in a.bootId && ':' !in b.bootId
    ensures a.number == b.number
  {
    var restA, restB := FormatNat(a.number) + ":" + a.attemptId, FormatNat(b.number) + ":" + b.attemptId;
    assert EventKey(a) == a.bootId + ":" + restA && EventKey(b) == b.bootId + ":" + restB;
    CutAtColon(a.bootId, b.bootId, restA, restB);
    CutAtColon(b.bootId, a.bootId, restB, restA);
    assert restA == (a.bootId + ":" + restA)[|a.bootId| + 1..] == (b.bootId + ":" + restB)[|b.bootId| + 1..] == restB;
    CutAtColon(FormatNat(a.number), FormatNat(b.number), a.attemptId, b.attemptId);
    CutAtColon(FormatNat(b.number), FormatNat(a.number), b.attemptId, a.attemptId);
    assert FormatNat(a.number) == restA[..|FormatNat(a.number)|] == FormatNat(b.number);
    ParsesWhatItFormats(a.number);
    ParsesWhatItFormats(b.number);
  }

  /** Accepted events are above the cursor, listed ones are not: none is a repeat. */
  lemma {:induction false} AllFresh(accepted: seq<Notice>, listed: seq<Notice>, cursor: nat)
    requires AllAbove(accepted, cursor) && Behind(listed, cursor) && PlainBoots(accepted) && PlainBoots(listed)
    ensures Fresh(accepted, listed) == accepted
  {
    if accepted != [] {
      var n := |accepted| - 1;
      AllFresh(accepted[..n], listed, cursor);
      forall i | 0 <= i < |listed|
        ensures EventKey(listed[i]) != EventKey(accepted[n])
      {
        if EventKey(listed[i]) == EventKey(accepted[n]) {
          assert listed[i] in listed;
          EventKeyFixesNumber(listed[i], accepted[n]);
        }
      }
      assert accepted == accepted[..n] + [accepted[n]];
    }
  }

  lemma {:induction false} ReversedInTwo(a: seq<Notice>, b: seq<Notice>)
    ensures Reversed(a + b) == Reversed(b) + Reversed(a)
  {
    if b == [] {
      assert a + b == a;
    } else {
      assert (a + b)[..|a + b| - 1] == a + b[..|b| - 1];
      ReversedInTwo(a, b[..|b| - 1]);
    }
  }

  lemma NewestOfNewest(a: seq<Notice>, b: seq<Notice>)
    ensures Newest(a + Newest(b)) == Newest(a + b)
  {}

  lemma {:induction false} ReversedKeeps(events: seq<Notice>, e: Notice)
    ensures e in Reversed(events) ==> e in events
  {
    if events != [] {
      ReversedKeeps(events[..|events| - 1], e);
    }
  }

  predicate Listable(page: Page) {
    && |page.events| <= MOST_EVENTS && PlainBoots(page.events)
    && forall i :: 0 <= i < |page.events| ==> page.events[i].number <= page.cursor
  }

  /** A page after work that found everything it accepted to be new. */
  function Shown(page: Page, w: Work): Page {
    page.(board := w.board, events := Newest(Reversed(w.accepted) + page.events), cursor := w.cursor)
  }

  function Begun(page: Page): Work { Work(page.board, page.cursor, []) }

  /** Over a page whose listed events are at or below its cursor, all of an ordered
      batch that is accepted is listed, newest first. */
  lemma BatchIsShown(locale: Locale, page: Page, events: seq<Notice>)
    requires Listable(page) && PlainBoots(events) && Ascending(events)
    ensures WithEvents(locale, page, events) == Shown(page, Worked(locale, Begun(page), events))
  {
    SortedStays(events);
    var w := Worked(locale, Begun(page), events);
    if w.accepted == [] {
      NothingAccepted(locale, Begun(page), events);
      assert Reversed(w.accepted) + page.events == page.events;
    } else {
      AcceptedAreNew(locale, Begun(page), page.cursor, events);
      AllFresh(w.accepted, page.events, page.cursor);
    }
  }

  predicate ListableAt(e: Notice, cursor: nat) { e.number <= cursor && ':' !in e.bootId }

  lemma PartsListable(accepted: seq<Notice>, listed: seq<Notice>, cursor: nat)
    requires forall e :: e in accepted ==> ListableAt(e, cursor)
    requires forall e :: e in listed ==> ListableAt(e, cursor)
    ensures forall e :: e in Newest(Reversed(accepted) + listed) ==> ListableAt(e, cursor)
  {
    var all := Reversed(accepted) + listed;
    forall e | e in all
      ensures ListableAt(e, cursor)
    {
      if e in Reversed(accepted) {
        ReversedKeeps(accepted, e);
      }
    }
    assert forall e :: e in Newest(all) ==> e in all;
  }

  lemma ShownIsListable(locale: Locale, page: Page, events: seq<Notice>)
    requires Listable(page) && PlainBoots(events)
    ensures Listable(Shown(page, Worked(locale, Begun(page), events)))
  {
    var w := Worked(locale, Begun(page), events);
    AcceptedAreNew(locale, Begun(page), page.cursor, events);
    CursorPasses(locale, Begun(page), events);
    PartsListable(w.accepted, page.events, w.cursor);
    var shown := Shown(page, w).events;
    forall i | 0 <= i < |shown|
      ensures ListableAt(shown[i], w.cursor)
    {
      assert shown[i] in shown;
    }
  }

  lemma ShownTwice(page: Page, w: Work, v: Work)
    ensures Shown(Shown(page, w), v) == Shown(page, v.(accepted := w.accepted + v.accepted))
  {
    ReversedInTwo(w.accepted, v.accepted);
    NewestOfNewest(Reversed(v.accepted), Reversed(w.accepted) + page.events);
    assert Reversed(v.accepted) + (Reversed(w.accepted) + page.events)
           == Reversed(w.accepted + v.accepted) + page.events;
  }

  lemma PlainParts(a: seq<Notice>, b: seq<Notice>)
    requires PlainBoots(a + b)
    ensures PlainBoots(a) && PlainBoots(b)
  {
    assert forall i :: 0 <= i < |a| ==> a[i] == (a + b)[i];
    assert forall i :: 0 <= i < |b| ==> b[i] == (a + b)[|a| + i];
  }

  /** Splitting a batch that is in order changes nothing: the page ends the same,
      event list, counters and cursor, whatever the cut. */
  lemma SplitBatch(locale: Locale, page: Page, a: seq<Notice>, b: seq<Notice>)
    requires Listable(page) && PlainBoots(a + b) && Ascending(a + b)
    ensures WithEvents(locale, WithEvents(locale, page, a), b) == WithEvents(locale, page, a + b)
  {
    PlainParts(a, b);
    AscendingPrefix(a, b);
    AscendingSuffix(a, b);
    var w := Worked(locale, Begun(page), a);
    var middle := Shown(page, w);
    BatchIsShown(locale, page, a);
    BatchIsShown(locale, page, a + b);
    ShownIsListable(locale, page, a);
    BatchIsShown(locale, middle, b);
    WorkedInTwo(locale, Begun(page), a, b);
    AcceptedAppends(locale, w, b);
    ShownTwice(page, w, Worked(locale, Begun(middle), b));
  }

  // ---- Snapshots ---------------------------------------------------------

  /** The snapshot's loop over the instances it carries. */
  function Loaded(cards: seq<Card>): (map<string, Card>, map<string, int>) {
    if cards == [] then (map[], map[])
    else
      var (m, counts) := Loaded(cards[..|cards| - 1]);
      var card := cards[|cards| - 1];
      (m[card.Text() := card], counts[card.service := CountOf(counts, card.service, 0) + 1])
  }

  method ReduceSnapshot(cards: seq<Card>) returns (instances: map<string, Card>, serviceCounts: map<string, int>)
    ensures (instances, serviceCounts) == Loaded(cards)
  {
    instances, serviceCounts := map[], map[];
    for i := 0 to |cards|
      invariant (instances, serviceCounts) == Loaded(cards[..i])
    {
      assert cards[..i + 1][..i] == cards[..i];
      instances := instances[cards[i].service + "/" + cards[i].instanceId := cards[i]];
      serviceCounts := serviceCounts[cards[i].service := CountOf(serviceCounts, cards[i].service, 0) + 1];
    }
    assert cards[..|cards|] == cards;
  }

  predicate Lists(cards: seq<Card>, key: string) {
    cards != [] && (cards[|cards| - 1].Text() == key || Lists(cards[..|cards| - 1], key))
  }

  predicate OneCardPerKey(cards: seq<Card>) {
    cards == [] || (OneCardPerKey(cards[..|cards| - 1]) && !Lists(cards[..|cards| - 1], cards[|cards| - 1].Text()))
  }

  lemma {:induction false} LoadedKeys(cards: seq<Card>, key: string)
    ensures key in Loaded(cards).0 <==> Lists(cards, key)
    ensures KeysRight(Loaded(cards).0)
    ensures forall service :: service in Loaded(cards).1 ==> Loaded(cards).1[service] > 0
  {
    if cards != [] {
      var init, card := cards[..|cards| - 1], cards[|cards| - 1];
      LoadedKeys(init, key);
      KeysAfterStoring(Loaded(init).0, card);
    }
  }

  function Surplus(m: map<string, Card>, counts: map<string, int>, service: string): int {
    CountOf(counts, service, 0) - |OfService(m, service)|
  }

  /** Loading one more card never lowers a surplus, and makes one if its key was there. */
  lemma SurplusGrows(m: map<string, Card>, counts: map<string, int>, card: Card, service: string)
    ensures var n, more := m[card.Text() := card], counts[card.service := CountOf(counts, card.service, 0) + 1];
            && Surplus(n, more, service) >= Surplus(m, counts, service)
            && (card.Text() in m && m[card.Text()].service == service
                ==> Surplus(n, more, service) > Surplus(m, counts, service))
  {
    RecountService(m, m[card.Text() := card], card.Text(), service);
  }

  lemma WrongHasSurplus(m: map<string, Card>, counts: map<string, int>)
    requires !ServicesRight(m, counts) && forall service :: service in counts ==> counts[service] > 0
    ensures exists service :: Surplus(m, counts, service) != 0
  {
    var service :| CountOf(counts, service, 0) != |OfService(m, service)|;
    assert Surplus(m, counts, service) != 0;
  }

  /** The counts a snapshot starts from are a fresh count of the instances it shows if
      and only if it lists no key twice. */
  lemma {:induction false} SnapshotCounts(cards: seq<Card>)
    ensures OneCardPerKey(cards) <==> ServicesRight(Loaded(cards).0, Loaded(cards).1)
    ensures forall service :: Surplus(Loaded(cards).0, Loaded(cards).1, service) >= 0
  {
    if cards != [] {
      var init, card := cards[..|cards| - 1], cards[|cards| - 1];
      var (m, counts) := Loaded(init);
      SnapshotCounts(init);
      LoadedKeys(init, card.Text());
      forall service
        ensures Surplus(Loaded(cards).0, Loaded(cards).1, service) >= Surplus(m, counts, service)
      {
        SurplusGrows(m, counts, card, service);
      }
      if !OneCardPerKey(init) {
        WrongHasSurplus(m, counts);
        var service :| Surplus(m, counts, service) != 0;
        assert Surplus(Loaded(cards).0, Loaded(cards).1, service) > 0;
      } else if card.Text() in m {
        SurplusGrows(m, counts, card, m[card.Text()].service);
      } else {
        ServicesAfterAdding(m, counts, card);
      }
    }
  }

  lemma LoadedOneMore(cards: seq<Card>, card: Card)
    ensures var (m, counts) := Loaded(cards);
            Loaded(cards + [card]) == (m[card.Text() := card],
                                       counts[card.service := CountOf(counts, card.service, 0) + 1])
  {
    assert (cards + [card])[..|cards|] == cards;
  }

  /** A snapshot that lists one instance twice counts it twice. */
  lemma RepeatedKeyIsCountedTwice(card: Card)
    ensures Loaded([card, card]).0 == map[card.Text() := card] && Loaded([card, card]).1 == map[card.service := 2]
    ensures !ServicesRight(Loaded([card, card]).0, Loaded([card, card]).1)
  {
    LoadedOneMore([], card);
    LoadedOneMore([card], card);
    SnapshotCounts([card, card]);
    assert [card, card][0].Text() == [card, card][1].Text();
    assert [] + [card] == [card] && [card] + [card] == [card, card];
  }

  // ---- What one event shows ----------------------------------------------

  /** A card replaces the one under its key exactly when its version is later: in
      milliseconds, else in the counter, else as the browser orders node ids. An equal or
      older one changes nothing. */
  lemma LaterCardIsShown(locale: Locale, b: Board, e: Notice)
    requires e.card.Some? && e.card.value.Text() in b.instances
    ensures var held, card, c := b.instances[e.card.value.Text()], e.card.value, WithCard(locale, b, e);
            if || held.version.physical < card.version.physical
               || (held.version.physical == card.version.physical && held.version.logical < card.version.logical)
               || (held.version.physical == card.version.physical && held.version.logical == card.version.logical
                   && locale(held.version.origin, card.version.origin) < 0)
            then c.instances == b.instances[card.Text() := card] && c.summary.updatedAt == e.occurredAt
            else c == b
  {}

  /** A card under a new key is shown; a removal takes the card away, and only that. */
  lemma CardsComeAndGo(locale: Locale, b: Board, e: Notice)
    ensures var c := WithCard(locale, b, e);
            && (e.card.Some? && e.card.value.Text() !in b.instances ==>
                  c.instances == b.instances[e.card.value.Text() := e.card.value]
                      && c.summary.updatedAt == e.occurredAt)
            && (e.card.None? && e.kind == "INSTANCE_REMOVED" && e.entityKey in b.instances ==>
                  c.instances == b.instances - {e.entityKey} && c.summary.updatedAt == e.occurredAt)
            && (e.card.None? && (e.kind != "INSTANCE_REMOVED" || e.entityKey !in b.instances) ==> c == b)
  {}

  lemma MemberIsShown(b: Board, e: Notice)
    ensures var c := WithPeer(b, e);
            && (e.peer.Some? ==> c.nodes == b.nodes[e.peer.value.nodeId := e.peer.value])
            && (e.peer.None? && e.node.Some? ==> c.nodes == b.nodes[e.node.value.nodeId := e.node.value])
            && (e.peer.None? && e.node.None? ==> c.nodes == b.nodes)
            && c.instances == b.instances && c.edges == b.edges
            && c.summary.gossipRate == b.summary.gossipRate
            && c.summary.updatedAt == if e.peer.Some? || e.node.Some? then e.occurredAt else b.summary.updatedAt
  {}

  lemma CardLeavesNodes(locale: Locale, b: Board, e: Notice)
    ensures WithCard(locale, b, e).nodes == b.nodes && WithCard(locale, b, e).edges == b.edges
  {}

  /** An event's member, or else its node, is shown under its own id, and its edges replace
      the ones shown. */
  lemma MembersAndEdgesAreShown(locale: Locale, b: Board, e: Notice)
    ensures var c := Absorbed(locale, b, e);
            && (e.peer.Some? ==> c.nodes == b.nodes[e.peer.value.nodeId := e.peer.value])
            && (e.peer.None? && e.node.Some? ==> c.nodes == b.nodes[e.node.value.nodeId := e.node.value])
            && (e.peer.None? && e.node.None? ==> c.nodes == b.nodes)
            && c.edges == (if e.edges.Some? then e.edges.value else b.edges)
            && c.instances == WithCard(locale, b, e).instances
            && c.summary.updatedAt == (if e.peer.Some? || e.node.Some? then e.occurredAt
                                       else WithCard(locale, b, e).summary.updatedAt)
  {
    CardLeavesNodes(locale, b, e);
    MemberIsShown(WithCard(locale, b, e), e);
  }

  predicate CardFor(e: Notice, key: string) { e.card.Some? && e.card.value.Text() == key }

  /** No event takes the card away. */
  predicate NeverRemoved(events: seq<Notice>, key: string) {
    forall e :: e in events ==> e.card.Some? || e.kind != "INSTANCE_REMOVED" || e.entityKey != key
  }

  /** The browser's order is an order on node ids. */
  ghost predicate OrdersNodes(locale: Locale) {
    && (forall a, b :: locale(a, b) < 0 <==> locale(b, a) > 0)
    && (forall a, b, c :: locale(a, b) <= 0 && locale(b, c) <= 0 ==> locale(a, c) <= 0)
  }

  lemma CardsTransitive(locale: Locale, a: Version, b: Version, c: Version)
    requires OrdersNodes(locale) && CompareCards(locale, a, b) <= 0 && CompareCards(locale, b, c) <= 0
    ensures CompareCards(locale, a, c) <= 0
  {}

  /** After any events none of which removes it, the card shown under a key is one of those
      that came or the one there before, and none that came is later. */
  lemma {:induction false} LatestCardIsShown(locale: Locale, b: Board, events: seq<Notice>, key: string)
    requires OrdersNodes(locale) && NeverRemoved(events, key)
    ensures var c := AbsorbedAll(locale, b, events);
            && (key in b.instances ==>
                  key in c.instances && CompareCards(locale, b.instances[key].version, c.instances[key].version) <= 0)
            && (forall e :: e in events && CardFor(e, key) ==>
                  key in c.instances && CompareCards(locale, e.card.value.version, c.instances[key].version) <= 0)
            && (key in c.instances ==>
                  || (key in b.instances && c.instances[key] == b.instances[key])
                  || exists e :: e in events && CardFor(e, key) && e.card.value == c.instances[key])
  {
    if events != [] {
      var init, last := events[..|events| - 1], events[|events| - 1];
      assert last in events && NeverRemoved(init, key);
      LatestCardIsShown(locale, b, init, key);
      OneMoreCard(locale, AbsorbedAll(locale, b, init), last, key);
      var before, after := AbsorbedAll(locale, b, init), AbsorbedAll(locale, b, events);
      forall e | e in events && CardFor(e, key)
        ensures key in after.instances && CompareCards(locale, e.card.value.version, after.instances[key].version) <= 0
      {
        if e in init {
          CardsTransitive(locale, e.card.value.version, before.instances[key].version, after.instances[key].version);
        }
      }
      if key in b.instances {
        CardsTransitive(locale, b.instances[key].version, before.instances[key].version, after.instances[key].version);
      }
    }
  }

  function AbsorbedAll(locale: Locale, b: Board, events: seq<Notice>): Board {
    if events == [] then b else Absorbed(locale, AbsorbedAll(locale, b, events[..|events| - 1]), events[|events| - 1])
  }

  lemma OneMoreCard(locale: Locale, b: Board, e: Notice, key: string)
    requires OrdersNodes(locale) && NeverRemoved([e], key)
    ensures var c := Absorbed(locale, b, e);
            && (key in b.instances ==>
                  key in c.instances && CompareCards(locale, b.instances[key].version, c.instances[key].version) <= 0)
            && (CardFor(e, key) ==>
                  key in c.instances && CompareCards(locale, e.card.value.version, c.instances[key].version) <= 0)
            && (key in c.instances ==>
                  || (key in b.instances && c.instances[key] == b.instances[key])
                  || (CardFor(e, key) && e.card.value == c.instances[key]))
  {
    assert e in [e];
    MembersAndEdgesAreShown(locale, b, e);
    if e.card.Some? && e.card.value.Text() in b.instances {
      LaterCardIsShown(locale, b, e);
    }
    CardsComeAndGo(locale, b, e);
  }

  lemma {:induction false} WorkAbsorbsAccepted(locale: Locale, b: Board, cursor: nat, events: seq<Notice>)
    ensures var w := Worked(locale, Work(b, cursor, []), events);
            w.board == AbsorbedAll(locale, b, w.accepted) && forall e :: e in w.accepted ==> e in events
  {
    if events != [] {
      var init := events[..|events| - 1];
      WorkAbsorbsAccepted(locale, b, cursor, init);
      var before, after := Worked(locale, Work(b, cursor, []), init), Worked(locale, Work(b, cursor, []), events);
      if after != before {
        assert after.accepted[..|after.accepted| - 1] == before.accepted;
      }
    }
  }

  /** So after a batch the page shows under a key the latest card of those it accepted and
      the one it showed, unless an accepted event removes the key. */
  lemma PageShowsLatest(locale: Locale, page: Page, events: seq<Notice>, key: string)
    requires OrdersNodes(locale)
    requires var w := Worked(locale, Begun(page), Ordered(events)); w.accepted != [] && NeverRemoved(w.accepted, key)
    ensures var accepted := Worked(locale, Begun(page), Ordered(events)).accepted;
            var was, now := page.board.instances, WithEvents(locale, page, events).board.instances;
            && (key in was ==> key in now && CompareCards(locale, was[key].version, now[key].version) <= 0)
            && (forall e :: e in accepted && CardFor(e, key) ==>
                  key in now && CompareCards(locale, e.card.value.version, now[key].version) <= 0)
            && (key in now ==>
                  || (key in was && now[key] == was[key])
                  || exists e :: e in accepted && CardFor(e, key) && e.card.value == now[key])
  {
    var w := Worked(locale, Begun(page), Ordered(events));
    WorkAbsorbsAccepted(locale, page.board, page.cursor, Ordered(events));
    LatestCardIsShown(locale, page.board, w.accepted, key);
  }

  // ---- What a batch accepts and lists ------------------------------------

  /** The first of some events with a number. */
  function FirstOf(events: seq<Notice>, n: nat): Option<Notice> {
    if events == [] then None
    else
      var init, e := events[..|events| - 1], events[|events| - 1];
      if FirstOf(init, n).Some? then FirstOf(init, n) else if e.number == n then Some(e) else None
  }

  lemma OneMoreFirst(events: seq<Notice>, e: Notice, n: nat)
    ensures FirstOf(events + [e], n)
            == if FirstOf(events, n).Some? then FirstOf(events, n) else if e.number == n then Some(e) else None
  {
    assert (events + [e])[..|events|] == events;
  }

  /** Past an event with a higher number, the new one goes where it would have gone before it. */
  lemma InsertedBefore(init: seq<Notice>, last: Notice, e: Notice, n: nat)
    requires Ascending(init) && Ascending(init + [last]) && last.number > e.number
    requires FirstOf(Inserted(init, e), n) == FirstOf(init + [e], n)
    ensures FirstOf(Inserted(init + [last], e), n) == FirstOf(init + [last] + [e], n)
  {
    assert (init + [last])[..|init|] == init;
    assert Inserted(init + [last], e) == Inserted(init, e) + [last];
    OneMoreFirst(Inserted(init, e), last, n);
    OneMoreFirst(init, e, n);
    OneMoreFirst(init, last, n);
    OneMoreFirst(init + [last], e, n);
  }

  lemma {:induction false} InsertedBehindEquals(events: seq<Notice>, e: Notice, n: nat)
    requires Ascending(events)
    ensures FirstOf(Inserted(events, e), n) == FirstOf(events + [e], n)
  {
    if events != [] && events[|events| - 1].number > e.number {
      var init, last := events[..|events| - 1], events[|events| - 1];
      assert events == init + [last] && Ascending(init);
      InsertedBehindEquals(init, e, n);
      InsertedBefore(init, last, e, n);
    } else {
      assert Inserted(events, e) == events + [e];
    }
  }

  lemma {:induction false} OrderedKeepsFirst(events: seq<Notice>, n: nat)
    ensures FirstOf(Ordered(events), n) == FirstOf(events, n)
  {
    if events != [] {
      var init, e := events[..|events| - 1], events[|events| - 1];
      OrderedKeepsFirst(init, n);
      InsertedBehindEquals(Ordered(init), e, n);
      assert (Ordered(init) + [e])[..|Ordered(init)|] == Ordered(init);
    }
  }

  predicate Rising(events: seq<Notice>) {
    forall i, j :: 0 <= i < j < |events| ==> events[i].number < events[j].number
  }

  lemma {:induction false} FirstIsThere(events: seq<Notice>, n: nat)
    ensures FirstOf(events, n).None? <==> forall i :: 0 <= i < |events| ==> events[i].number != n
  {
    if events != [] {
      var init := events[..|events| - 1];
      FirstIsThere(init, n);
      assert forall i :: 0 <= i < |init| ==> init[i] == events[i];
    }
  }

  function CursorAfter(cursor: nat, accepted: seq<Notice>): nat {
    if accepted == [] then cursor else accepted[|accepted| - 1].number
  }

  /** What the loop accepts, whatever it does to the board. */
  function Past(cursor: nat, events: seq<Notice>): seq<Notice> {
    if events == [] then []
    else
      var before, e := Past(cursor, events[..|events| - 1]), events[|events| - 1];
      if e.number <= CursorAfter(cursor, before) then before else before + [e]
  }

  lemma {:induction false} WorkAccepts(locale: Locale, w: Work, events: seq<Notice>)
    requires w.accepted == []
    ensures var v := Worked(locale, w, events);
            v.accepted == Past(w.cursor, events) && v.cursor == CursorAfter(w.cursor, v.accepted)
  {
    if events != [] {
      WorkAccepts(locale, w, events[..|events| - 1]);
    }
  }

  lemma {:induction false} PastRises(cursor: nat, events: seq<Notice>)
    ensures Rising(Past(cursor, events))
    ensures forall e :: e in Past(cursor, events) ==> cursor < e.number <= CursorAfter(cursor, Past(cursor, events))
  {
    if events != [] {
      PastRises(cursor, events[..|events| - 1]);
    }
  }

  /** In an ordered batch the cursor is at the last number, or still ahead of it. */
  lemma {:induction false} CursorIsLast(cursor: nat, events: seq<Notice>)
    requires Ascending(events)
    ensures var last := if events == [] then 0 else events[|events| - 1].number;
            CursorAfter(cursor, Past(cursor, events)) == if last > cursor then last else cursor
  {
    if events != [] {
      CursorIsLast(cursor, events[..|events| - 1]);
    }
  }

  lemma OneMorePast(cursor: nat, events: seq<Notice>, e: Notice)
    ensures Past(cursor, events + [e])
            == Past(cursor, events)
               + if e.number <= CursorAfter(cursor, Past(cursor, events)) then [] else [e]
  {
    assert (events + [e])[..|events|] == events;
  }

  lemma PastStep(cursor: nat, events: seq<Notice>, e: Notice, n: nat)
    requires Ascending(events) && (events != [] ==> events[|events| - 1].number <= e.number)
    requires FirstOf(Past(cursor, events), n) == if n <= cursor then None else FirstOf(events, n)
    ensures FirstOf(Past(cursor, events + [e]), n) == if n <= cursor then None else FirstOf(events + [e], n)
  {
    OneMorePast(cursor, events, e);
    CursorIsLast(cursor, events);
    OneMoreFirst(events, e, n);
    if e.number > CursorAfter(cursor, Past(cursor, events)) {
      OneMoreFirst(Past(cursor, events), e, n);
    } else {
      FirstIsThere(events, n);
    }
  }

  lemma {:induction false} PastKeepsFirst(cursor: nat, events: seq<Notice>, n: nat)
    requires Ascending(events)
    ensures FirstOf(Past(cursor, events), n) == if n <= cursor then None else FirstOf(events, n)
  {
    if events != [] {
      var init, e := events[..|events| - 1], events[|events| - 1];
      assert events == init + [e];
      assert Ascending(init) && (init != [] ==> init[|init| - 1].number <= e.number);
      PastKeepsFirst(cursor, init, n);
      PastStep(cursor, init, e, n);
    }
  }

  /** Of every number past the cursor a batch accepts the first event given, of the others
      none; what is accepted is in order of its numbers, and the cursor ends at the last. */
  lemma AcceptsFirstOfEach(locale: Locale, page: Page, events: seq<Notice>, w: Work, n: nat)
    requires w == Worked(locale, Begun(page), Ordered(events))
    ensures FirstOf(w.accepted, n) == if n <= page.cursor then None else FirstOf(events, n)
    ensures Rising(w.accepted)
    ensures w.cursor == if w.accepted == [] then page.cursor else w.accepted[|w.accepted| - 1].number
  {
    WorkAccepts(locale, Begun(page), Ordered(events));
    OrderedKeepsFirst(events, n);
    PastKeepsFirst(page.cursor, Ordered(events), n);
    PastRises(page.cursor, Ordered(events));
  }

  predicate IsListed(listed: seq<Notice>, e: Notice) {
    exists i :: 0 <= i < |listed| && EventKey(listed[i]) == EventKey(e)
  }

  /** An accepted event is listed again exactly when none listed has its key. */
  lemma {:induction false} FreshAreUnlisted(accepted: seq<Notice>, listed: seq<Notice>, e: Notice)
    ensures multiset(Fresh(accepted, listed))[e] == if IsListed(listed, e) then 0 else multiset(accepted)[e]
  {
    if accepted != [] {
      var init, last := accepted[..|accepted| - 1], accepted[|accepted| - 1];
      FreshAreUnlisted(init, listed, e);
      assert accepted == init + [last];
    }
  }

  lemma {:induction false} ReversedAt(events: seq<Notice>, i: nat)
    requires i < |events|
    ensures Reversed(events)[i] == events[|events| - 1 - i]
  {
    if i > 0 {
      ReversedAt(events[..|events| - 1], i - 1);
    }
  }

  /** New events in front, latest first, then those listed before, cut at 500. */
  lemma ListStopsAt500(added: seq<Notice>, listed: seq<Notice>, i: nat)
    ensures var all, events := |added| + |listed|, Newest(Reversed(added) + listed);
            && |events| == (if all < 500 then all else 500)
            && (i < |events| ==> events[i] == if i < |added| then added[|added| - 1 - i] else listed[i - |added|])
  {
    if i < |added| {
      ReversedAt(added, i);
    }
  }

  /** A batch that accepts anything puts the accepted events not yet listed in front of the
      list, as above, and moves nothing else of the page but the board and the cursor. */
  lemma UnlistedAreAdded(locale: Locale, page: Page, events: seq<Notice>, w: Work)
    requires w == Worked(locale, Begun(page), Ordered(events)) && w.accepted != []
    ensures var listed := Newest(Reversed(Fresh(w.accepted, page.events)) + page.events);
            WithEvents(locale, page, events) == page.(board := w.board, events := listed, cursor := w.cursor)
  {}
}
