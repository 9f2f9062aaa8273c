/** The bounded memory of client operation ids an entry keeps, so that a retry
    is answered instead of applied (backend/internal/registry/registry.go). */
module OperationWindow {
  import opened Ordering

  const WINDOW_SIZE: nat := 32

  /** `events` finds the event an operation caused; `order` is oldest first. */
  datatype Window = Window(events: map<string, string>, order: seq<string>)
  {
    ghost predicate Valid() {
      && |order| <= WINDOW_SIZE
      && Distinct(order)
      && events.Keys == (set id | id in order)
    }

    predicate Knows(operationId: string) { operationId != "" && operationId in events }
  }

  const EMPTY_WINDOW := Window(map[], [])

  ghost predicate Distinct(ids: seq<string>) {
    forall i, j :: 0 <= i < j < |ids| ==> ids[i] != ids[j]
  }

  function Remember(w: Window, operationId: string, eventId: string): (r: Window)
    ensures w.Valid() ==> r.Valid()
    ensures operationId != "" ==> operationId in r.events
  {
    if operationId == "" || operationId in w.events then w
    else if |w.order| == WINDOW_SIZE then
      Window((w.events - {w.order[0]})[operationId := eventId], w.order[1..] + [operationId])
    else
      Window(w.events[operationId := eventId], w.order + [operationId])
  }

  /** One call of rememberOperation: an operation id and the event it caused. */
  datatype Call = Call(operationId: string, eventId: string)

  function RememberAll(w: Window, calls: seq<Call>): Window {
    if calls == [] then w
    else
      var last := calls[|calls| - 1];
      Remember(RememberAll(w, calls[..|calls| - 1]), last.operationId, last.eventId)
  }

  function Newest(log: seq<Call>): seq<Call> {
    if |log| <= WINDOW_SIZE then log else log[|log| - WINDOW_SIZE..]
  }

  /** Reference definition, with no map and no eviction: a call is logged when its
      id is not blank and not among the newest 32 logged so far. */
  ghost function Log(calls: seq<Call>): seq<Call> {
    if calls == [] then [] else LogOne(Log(calls[..|calls| - 1]), calls[|calls| - 1])
  }

  ghost function LogOne(log: seq<Call>, call: Call): seq<Call> {
    if call.operationId == "" || Listed(Newest(log), call.operationId) then log else log + [call]
  }

  ghost predicate Listed(calls: seq<Call>, operationId: string) {
    exists i :: 0 <= i < |calls| && calls[i].operationId == operationId
  }

  ghost predicate Represents(w: Window, recent: seq<Call>) {
    && |w.order| == |recent|
    && (forall i :: 0 <= i < |recent| ==> w.order[i] == recent[i].operationId)
    && (forall i :: 0 <= i < |recent| ==>
          recent[i].operationId in w.events && w.events[recent[i].operationId] == recent[i].eventId)
  }

  /** One new id: the oldest leaves a full window, the new one joins at the end. */
  lemma RememberShifts(w: Window, recent: seq<Call>, call: Call)
    requires w.Valid() && Represents(w, recent)
    requires call.operationId != "" && call.operationId !in w.events
    ensures var kept := if |recent| == WINDOW_SIZE then recent[1..] else recent;
            Represents(Remember(w, call.operationId, call.eventId), kept + [call])
  {
    var r := Remember(w, call.operationId, call.eventId);
    var drop := if |recent| == WINDOW_SIZE then 1 else 0;
    var kept := recent[drop..] + [call];
    forall i | 0 <= i < |kept|
      ensures r.order[i] == kept[i].operationId
      ensures kept[i].operationId in r.events && r.events[kept[i].operationId] == kept[i].eventId
    {
      if i < |kept| - 1 {
        assert w.order[i + drop] == recent[i + drop].operationId;
        assert w.order[i + drop] in w.order;
      }
    }
  }

  lemma NewestGrows(log: seq<Call>, call: Call)
    ensures Newest(log + [call]) == (if |Newest(log)| == WINDOW_SIZE then Newest(log)[1..] else Newest(log)) + [call]
  {}

  lemma RepresentsAfterOne(w: Window, log: seq<Call>, call: Call)
    requires w.Valid() && Represents(w, Newest(log))
    ensures Represents(Remember(w, call.operationId, call.eventId), Newest(LogOne(log, call)))
  {
    if call.operationId != "" {
      KnowsWhatItRepresents(w, Newest(log), call.operationId);
      if call.operationId !in w.events {
        RememberShifts(w, Newest(log), call);
        NewestGrows(log, call);
      }
    }
  }

  lemma KnowsWhatItRepresents(w: Window, recent: seq<Call>, operationId: string)
    requires w.Valid() && Represents(w, recent)
    ensures operationId in w.events <==> Listed(recent, operationId)
  {
    if operationId in w.events {
      assert operationId in w.order;
      var i :| 0 <= i < |w.order| && w.order[i] == operationId;
      assert recent[i].operationId == operationId;
    }
  }

  /** After any history of calls the map and the order list hold the same ids,
      no id twice, at most 32: exactly the newest logged calls, with their events. */
  lemma {:induction false} WindowHoldsNewest(calls: seq<Call>)
    ensures RememberAll(EMPTY_WINDOW, calls).Valid()
    ensures Represents(RememberAll(EMPTY_WINDOW, calls), Newest(Log(calls)))
  {
    if calls != [] {
      var init := calls[..|calls| - 1];
      WindowHoldsNewest(init);
      RepresentsAfterOne(RememberAll(EMPTY_WINDOW, init), Log(init), calls[|calls| - 1]);
    }
  }

  /** The id is in the window, at most `age` places from its newest end. */
  ghost predicate AmongNewest(w: Window, operationId: string, eventId: string, age: nat) {
    && operationId in w.events && w.events[operationId] == eventId
    && exists i :: 0 <= i < |w.order| && |w.order| - i <= age && w.order[i] == operationId
  }

  /** A remembered id loses at most one place per call, and keeps its event. */
  lemma AgesByOne(w: Window, operationId: string, eventId: string, age: nat, call: Call)
    requires w.Valid() && age < WINDOW_SIZE && AmongNewest(w, operationId, eventId, age)
    ensures AmongNewest(Remember(w, call.operationId, call.eventId), operationId, eventId, age + 1)
  {
    var r := Remember(w, call.operationId, call.eventId);
    var i :| 0 <= i < |w.order| && |w.order| - i <= age && w.order[i] == operationId;
    if r != w {
      var j := if |w.order| == WINDOW_SIZE then i - 1 else i;
      assert r.order[j] == operationId;
    }
  }

  /** A new id goes to the newest place. */
  lemma RememberedIsNewest(w: Window, operationId: string, eventId: string)
    requires w.Valid() && operationId != "" && operationId !in w.events
    ensures AmongNewest(Remember(w, operationId, eventId), operationId, eventId, 1)
  {
    var r := Remember(w, operationId, eventId);
    assert r.order[|r.order| - 1] == operationId;
  }
}
