/** The hashed timing wheel (backend/internal/ttl/wheel.go). Slots, rounds and a
    moving position implement a plain bag of tasks from which every tick takes
    exactly the tasks whose deadline has come. */
module Wheel {
  import opened Ordering
  import opened Versions
  import opened Model

  datatype TaskKind = DelayTask | ExpireTask | CollectTask

  datatype Task = Task(kind: TaskKind, service: string, instanceId: string, leaseId: string, expectedVersion: string,
                       deadline: Time)

  datatype Item = Item(task: Task, rounds: int)

  // ---- Arithmetic --------------------------------------------------------

  /** Go's integer division, which truncates toward zero. */
  function TruncDiv(a: int, b: int): int
    requires b > 0
  {
    if a >= 0 then a / b else -((-a) / b)
  }

  /** The tick count Schedule computes, with its int64 arithmetic. */
  function Ticks(deadline: Time, current: Time, tick: int): (n: int)
    requires tick > 0
    ensures n >= 1
  {
    var n := TruncDiv(WrapInt64(Saturate(deadline - current) + tick - 1), tick);
    if n < 1 then 1 else n
  }

  /** How many ticks until the wheel's time reaches the deadline, at least one. */
  function Due(deadline: Time, current: Time, tick: int): (n: int)
    requires tick > 0
    ensures n >= 1
    decreases if deadline > current then deadline - current else 0
  {
    if deadline <= current + tick then 1 else 1 + Due(deadline, current + tick, tick)
  }

  lemma MulMonotone(a: int, b: int, t: int)
    requires a <= b && t >= 0
    ensures a * t <= b * t
  {
    assert b * t - a * t == (b - a) * t;
  }

  lemma SmallMultiple(k: int, n: int)
    requires n > 0 && -n < k * n < n
    ensures k == 0
  {
    if k > 0 {
      MulMonotone(1, k, n);
    } else if k < 0 {
      MulMonotone(k, -1, n);
    }
  }

  lemma DivisionAt(x: int, tick: int, n: int)
    requires tick > 0
    ensures x >= n * tick <==> x / tick >= n
  {
    var q, r := x / tick, x % tick;
    assert x == q * tick + r && 0 <= r < tick;
    assert (n - 1) * tick == n * tick - tick;
    if q >= n {
      MulMonotone(n, q, tick);
    } else {
      MulMonotone(q, n - 1, tick);
    }
  }

  /** The distance does not fit the int64 arithmetic of Schedule: 292 years ahead. */
  predicate Overflows(deadline: Time, current: Time, tick: int) { deadline - current + tick - 1 > MAX_INT64 }

  /** Schedule never counts too many ticks, and counts exactly if and only if its sum
      does not overflow or the deadline is within one tick. */
  lemma TicksAreDue(deadline: Time, current: Time, tick: int)
    requires 0 < tick <= MAX_INT64
    ensures Ticks(deadline, current, tick) <= Due(deadline, current, tick)
    ensures Ticks(deadline, current, tick) == Due(deadline, current, tick)
            <==> !Overflows(deadline, current, tick) || deadline <= current + tick
  {
    DueIsCeiling(deadline, current, tick);
    var ahead := deadline - current;
    if Overflows(deadline, current, tick) {
      var sum := Saturate(ahead) + tick - 1;
      if sum > MAX_INT64 {
        WrapsNegative(sum);
        NegativeDivision(WrapInt64(sum), tick);
      } else {
        DivisionAt(ahead + tick - 1, tick, sum / tick);
        DivisionAt(sum, tick, sum / tick);
      }
    } else if ahead <= 0 {
      var sum := Saturate(ahead) + tick - 1;
      if sum >= 0 {
        DivisionAt(sum, tick, 2);
      } else {
        NegativeDivision(sum, tick);
      }
    }
  }

  /** A deadline 292 years ahead, as a remote lease may carry: the sum wraps, and the task
      is placed one tick ahead instead of some ten thousand million. */
  lemma FarDeadlineWraps()
    ensures var deadline, tick := 9_223_372_036_854 * NANOS_PER_MILLI, 1_000_000_000;
            Ticks(deadline, 0, tick) == 1 && Due(deadline, 0, tick) == 9_223_372_037
  {
    DueIsCeiling(9_223_372_036_854 * NANOS_PER_MILLI, 0, 1_000_000_000);
  }

  lemma WrapsNegative(sum: int)
    requires MAX_INT64 < sum <= 2 * MAX_INT64
    ensures WrapInt64(sum) < 0
  {
    var high := sum + 0x8000_0000_0000_0000 - 0x1_0000_0000_0000_0000;
    assert (high + 0x1_0000_0000_0000_0000) % 0x1_0000_0000_0000_0000 == high;
  }

  lemma NegativeDivision(x: int, tick: int)
    requires x < 0 < tick
    ensures TruncDiv(x, tick) <= 0
  {
    DivisionAt(-x, tick, 0);
  }

  /** In closed form, max(1, ceil((deadline - current) / tick)). */
  lemma {:induction false} DueIsCeiling(deadline: Time, current: Time, tick: int)
    requires tick > 0
    ensures Due(deadline, current, tick) == if deadline <= current then 1 else (deadline - current + tick - 1) / tick
    decreases if deadline > current then deadline - current else 0
  {
    var sum := deadline - current + tick - 1;
    if current < deadline <= current + tick {
      RemainderIs(sum, tick, 1, sum - tick);
      assert Due(deadline, current, tick) == 1;
    } else if deadline > current + tick {
      DueIsCeiling(deadline, current + tick, tick);
      OneTickMore(sum, tick);
    }
  }

  lemma OneTickMore(sum: int, tick: int)
    requires tick > 0
    ensures sum / tick == (sum - tick) / tick + 1
  {
    var q, rest := (sum - tick) / tick, (sum - tick) % tick;
    OneMoreTimes(q, tick);
    RemainderIs(sum, tick, q + 1, rest);
  }

  lemma OneMoreTimes(q: int, tick: int)
    ensures (q + 1) * tick == q * tick + tick
  {}

  /** A task with a future deadline is due at or after it, by less than a tick. */
  lemma {:induction false} DueIsTight(deadline: Time, current: Time, tick: int)
    requires tick > 0 && deadline > current
    ensures deadline <= current + Due(deadline, current, tick) * tick < deadline + tick
    decreases deadline - current
  {
    if deadline > current + tick {
      DueIsTight(deadline, current + tick, tick);
      var n := Due(deadline, current + tick, tick);
      assert (1 + n) * tick == n * tick + tick;
    }
  }

  // ---- Slots and rounds --------------------------------------------------

  function SlotFor(n: int, position: int, ticks: int): int
    requires n > 0
  {
    (position + ticks % n) % n
  }

  /** How many advances until an item in `slot` with `rounds` left is taken out. */
  function FireIn(n: int, position: int, slot: int, rounds: int): int {
    (if slot > position then slot - position else slot - position + n) + Turns(rounds, n)
  }

  function Turns(rounds: int, n: int): int {
    if rounds <= 0 then 0 else n + Turns(rounds - 1, n)
  }

  lemma {:induction false} TurnsMultiply(rounds: int, n: int)
    requires rounds >= 0
    ensures Turns(rounds, n) == rounds * n
  {
    if rounds > 0 {
      TurnsMultiply(rounds - 1, n);
      assert (rounds - 1) * n == rounds * n - n;
    }
  }

  lemma {:induction false} TurnsNonNegative(rounds: int, n: int)
    requires n > 0
    ensures Turns(rounds, n) >= 0
  {
    if rounds > 0 {
      TurnsNonNegative(rounds - 1, n);
    }
  }

  lemma RemainderIs(x: int, n: int, q: int, r: int)
    requires n > 0 && 0 <= r < n && x == q * n + r
    ensures x % n == r && x / n == q
  {
    var d, m := x / n, x % n;
    assert x == d * n + m && 0 <= m < n;
    assert (d - q) * n == d * n - q * n;
    SmallMultiple(d - q, n);
  }

  /** ticks is some whole turns of the wheel and an offset between 1 and n. */
  lemma SplitTicks(n: int, ticks: int) returns (turns: int, offset: int)
    requires n > 1 && ticks >= 1
    ensures turns == (ticks - 1) / n >= 0 && 1 <= offset <= n && ticks == turns * n + offset
    ensures ticks % n == if offset == n then 0 else offset
  {
    turns, offset := (ticks - 1) / n, (ticks - 1) % n + 1;
    assert ticks - 1 == turns * n + (offset - 1);
    DivisionAt(ticks - 1, n, 0);
    if offset == n {
      assert (turns + 1) * n == turns * n + n;
      RemainderIs(ticks, n, turns + 1, 0);
    } else {
      RemainderIs(ticks, n, turns, offset);
    }
  }

  lemma SlotAt(n: int, position: int, offset: int)
    requires n > 1 && 0 <= position < n && 0 <= offset < n
    ensures (position + offset) % n == if position + offset < n then position + offset else position + offset - n
  {
    if position + offset < n {
      RemainderIs(position + offset, n, 0, position + offset);
    } else {
      RemainderIs(position + offset, n, 1, position + offset - n);
    }
  }

  lemma PlacedToFire(n: int, position: int, ticks: int)
    requires n > 1 && 0 <= position < n && ticks >= 1
    ensures 0 <= SlotFor(n, position, ticks) < n
    ensures (ticks - 1) / n >= 0
    ensures FireIn(n, position, SlotFor(n, position, ticks), (ticks - 1) / n) == ticks
  {
    var turns, offset := SplitTicks(n, ticks);
    SlotAt(n, position, if offset == n then 0 else offset);
    TurnsMultiply(turns, n);
  }

  lemma FiresSooner(n: int, position: int, next: int, slot: int, rounds: int)
    requires n > 1 && 0 <= position < n && 0 <= slot < n && rounds >= 0
    requires next == if position + 1 == n then 0 else position + 1
    ensures slot != next ==> FireIn(n, next, slot, rounds) == FireIn(n, position, slot, rounds) - 1
    ensures slot == next && rounds > 0 ==> FireIn(n, next, slot, rounds - 1) == FireIn(n, position, slot, rounds) - 1
    ensures slot == next && rounds == 0 ==> FireIn(n, position, slot, rounds) == 1
    ensures slot != next || rounds > 0 ==> FireIn(n, position, slot, rounds) > 1
  {
    TurnsNonNegative(rounds, n);
    TurnsNonNegative(rounds - 1, n);
  }

  function Following(position: nat, n: nat): (next: nat)
    requires position < n && n > 1
    ensures next == if position + 1 == n then 0 else position + 1
  {
    RemainderIs(position + 1, n, if position + 1 == n then 1 else 0, if position + 1 == n then 0 else position + 1);
    (position + 1) % n
  }

  // ---- Bags of tasks -----------------------------------------------------

  function Bag(items: seq<Item>): multiset<Task> {
    if items == [] then multiset{} else multiset{items[0].task} + Bag(items[1..])
  }

  function AllTasks(slots: seq<seq<Item>>): multiset<Task> {
    if slots == [] then multiset{} else AllTasks(slots[..|slots| - 1]) + Bag(slots[|slots| - 1])
  }

  /** Of some items, the tasks whose deadline has come, and the others. */
  function Ready(items: seq<Item>, current: Time): multiset<Task> {
    if items == [] then multiset{}
    else if items[0].task.deadline <= current then multiset{items[0].task} + Ready(items[1..], current)
    else Ready(items[1..], current)
  }

  function Later(items: seq<Item>, current: Time): multiset<Task> {
    if items == [] then multiset{}
    else if items[0].task.deadline <= current then Later(items[1..], current)
    else multiset{items[0].task} + Later(items[1..], current)
  }

  lemma {:induction false} BagAppend(items: seq<Item>, item: Item)
    ensures Bag(items + [item]) == Bag(items) + multiset{item.task}
  {
    if items != [] {
      assert (items + [item])[1..] == items[1..] + [item];
      BagAppend(items[1..], item);
    } else {
      assert (items + [item])[1..] == [];
    }
  }

  lemma AddToBoth(a: multiset<Task>, b: multiset<Task>, c: multiset<Task>, d: multiset<Task>, more: multiset<Task>)
    requires a + b == c + d
    ensures a + more + b == c + more + d
  {
    assert a + more + b == a + b + more;
    assert c + more + d == c + d + more;
  }

  lemma {:induction false} ReplaceSlot(slots: seq<seq<Item>>, i: nat, slot: seq<Item>)
    requires i < |slots|
    ensures AllTasks(slots[i := slot]) + Bag(slots[i]) == AllTasks(slots) + Bag(slot)
  {
    var init, last := slots[..|slots| - 1], Bag(slots[|slots| - 1]);
    if i < |init| {
      assert slots[i := slot][..|slots| - 1] == init[i := slot];
      ReplaceSlot(init, i, slot);
      AddToBoth(AllTasks(init[i := slot]), Bag(slots[i]), AllTasks(init), Bag(slot), last);
    } else {
      assert slots[i := slot][..|slots| - 1] == init;
      AddToBoth(AllTasks(init), last, AllTasks(init), last, Bag(slot));
    }
  }

  lemma AppendToSlot(slots: seq<seq<Item>>, i: nat, item: Item)
    requires i < |slots|
    ensures AllTasks(slots[i := slots[i] + [item]]) == AllTasks(slots) + multiset{item.task}
  {
    var grown, bag := AllTasks(slots[i := slots[i] + [item]]), Bag(slots[i]);
    ReplaceSlot(slots, i, slots[i] + [item]);
    BagAppend(slots[i], item);
    assert grown + bag == AllTasks(slots) + multiset{item.task} + bag;
    assert grown == grown + bag - bag;
    assert AllTasks(slots) + multiset{item.task} == AllTasks(slots) + multiset{item.task} + bag - bag;
  }

  // ---- The wheel ---------------------------------------------------------

  /** The wheel as a bag: all that callers can tell. */
  datatype Agenda = Agenda(current: Time, pending: multiset<Task>)

  /** One tick takes exactly the tasks whose deadline is not after the new time. */
  ghost predicate Ticked(before: Agenda, due: multiset<Task>, after: Agenda, tick: int) {
    && after.current == before.current + tick
    && (forall t :: due[t] == if t.deadline <= after.current then before.pending[t] else 0)
    && (forall t :: after.pending[t] == if t.deadline <= after.current then 0 else before.pending[t])
  }

  /** The wheel's shape and time, fixed while a slot is worked on. */
  datatype Dial = Dial(size: int, position: int, current: Time, tick: int)
  {
    predicate Ok() { size > 1 && 0 <= position < size && 0 < tick <= MAX_INT64 }

    function Next(): Dial {
      Dial(size, if position + 1 == size then 0 else position + 1, current + tick, tick)
    }
  }

  /** An item fires when it is due; one whose count overflowed may fire sooner. */
  predicate WellPlaced(exact: bool, d: Dial, slot: int, item: Item)
    requires d.Ok()
  {
    && item.rounds >= 0
    && var fire, due := FireIn(d.size, d.position, slot, item.rounds), Due(item.task.deadline, d.current, d.tick);
       fire == due || (!exact && fire < due)
  }

  predicate SlotPlaced(exact: bool, d: Dial, slot: int, items: seq<Item>)
    requires d.Ok()
  {
    items != [] ==> WellPlaced(exact, d, slot, items[0]) && SlotPlaced(exact, d, slot, items[1..])
  }

  predicate AllPlaced(exact: bool, d: Dial, slots: seq<seq<Item>>)
    requires d.Ok()
  {
    slots != [] ==>
      && SlotPlaced(exact, d, |slots| - 1, slots[|slots| - 1])
      && AllPlaced(exact, d, slots[..|slots| - 1])
  }

  /** An item of the slot the wheel has just reached. */
  predicate Taken(exact: bool, d: Dial, item: Item)
    requires d.Ok()
  {
    && item.rounds >= 0
    && (item.rounds > 0 ==>
          && item.task.deadline > d.current
          && WellPlaced(exact, d, d.position, item.(rounds := item.rounds - 1)))
    && (item.rounds == 0 && exact ==> item.task.deadline <= d.current)
  }

  predicate AllTaken(exact: bool, d: Dial, items: seq<Item>)
    requires d.Ok()
  {
    items != [] ==> Taken(exact, d, items[0]) && AllTaken(exact, d, items[1..])
  }

  ghost predicate AllAfter(pending: multiset<Task>, time: Time) { forall t :: t in pending ==> t.deadline > time }

  /** What one tick does to an item's place. */
  lemma PlacementAfterTick(exact: bool, d: Dial, slot: int, item: Item)
    requires d.Ok() && 0 <= slot < d.size && WellPlaced(exact, d, slot, item)
    ensures slot != d.Next().position ==>
             item.task.deadline > d.Next().current && WellPlaced(exact, d.Next(), slot, item)
    ensures slot == d.Next().position ==> Taken(exact, d.Next(), item)
  {
    FiresSooner(d.size, d.position, d.Next().position, slot, item.rounds);
  }

  lemma {:induction false} SlotAfterTick(exact: bool, d: Dial, slot: int, items: seq<Item>)
    requires d.Ok() && 0 <= slot < d.size && SlotPlaced(exact, d, slot, items)
    ensures slot != d.Next().position ==>
             SlotPlaced(exact, d.Next(), slot, items) && AllAfter(Bag(items), d.Next().current)
    ensures slot == d.Next().position ==> AllTaken(exact, d.Next(), items)
  {
    if items != [] {
      PlacementAfterTick(exact, d, slot, items[0]);
      SlotAfterTick(exact, d, slot, items[1..]);
    }
  }

  /** After a tick the slot reached is taken out; the rest keeps its place, later. */
  lemma {:induction false} SlotsAfterTick(exact: bool, d: Dial, slots: seq<seq<Item>>)
    requires d.Ok() && |slots| <= d.size && AllPlaced(exact, d, slots)
    ensures var next := d.Next();
            if next.position < |slots| then
              && AllPlaced(exact, next, slots[next.position := []])
              && AllAfter(AllTasks(slots[next.position := []]), next.current)
              && AllTaken(exact, next, slots[next.position])
            else AllPlaced(exact, next, slots) && AllAfter(AllTasks(slots), next.current)
  {
    if slots != [] {
      var init, at := slots[..|slots| - 1], d.Next().position;
      SlotsAfterTick(exact, d, init);
      SlotAfterTick(exact, d, |init|, slots[|init|]);
      if at < |init| {
        assert slots[at := []][..|init|] == init[at := []];
      } else if at == |init| {
        assert slots[at := []][..|init|] == init;
      }
    }
  }

  lemma {:induction false} SlotGrows(exact: bool, d: Dial, slot: int, items: seq<Item>, item: Item)
    requires d.Ok() && SlotPlaced(exact, d, slot, items) && WellPlaced(exact, d, slot, item)
    ensures SlotPlaced(exact, d, slot, items + [item])
  {
    if items != [] {
      assert (items + [item])[1..] == items[1..] + [item];
      SlotGrows(exact, d, slot, items[1..], item);
    } else {
      assert (items + [item])[1..] == [];
    }
  }

  lemma {:induction false} SlotsGrow(exact: bool, d: Dial, slots: seq<seq<Item>>, slot: nat, item: Item)
    requires d.Ok() && slot < |slots| && AllPlaced(exact, d, slots) && WellPlaced(exact, d, slot, item)
    ensures AllPlaced(exact, d, slots[slot := slots[slot] + [item]])
  {
    var init := slots[..|slots| - 1];
    if slot < |init| {
      SlotsGrow(exact, d, init, slot, item);
      assert slots[slot := slots[slot] + [item]][..|init|] == init[slot := init[slot] + [item]];
    } else {
      SlotGrows(exact, d, slot, slots[slot], item);
      assert slots[slot := slots[slot] + [item]][..|init|] == init;
    }
  }

  lemma {:induction false} EmptySlotsPlaced(exact: bool, d: Dial, slots: seq<seq<Item>>)
    requires d.Ok() && forall s :: 0 <= s < |slots| ==> slots[s] == []
    ensures AllPlaced(exact, d, slots) && AllTasks(slots) == multiset{}
  {
    if slots != [] {
      EmptySlotsPlaced(exact, d, slots[..|slots| - 1]);
    }
  }

  /** An exactly placed wheel is a placed wheel. */
  lemma {:induction false} SlotExactIsPlaced(d: Dial, slot: int, items: seq<Item>)
    requires d.Ok() && SlotPlaced(true, d, slot, items)
    ensures SlotPlaced(false, d, slot, items)
  {
    if items != [] {
      SlotExactIsPlaced(d, slot, items[1..]);
    }
  }

  lemma {:induction false} ExactIsPlaced(d: Dial, slots: seq<seq<Item>>)
    requires d.Ok() && AllPlaced(true, d, slots)
    ensures AllPlaced(false, d, slots)
  {
    if slots != [] {
      SlotExactIsPlaced(d, |slots| - 1, slots[|slots| - 1]);
      ExactIsPlaced(d, slots[..|slots| - 1]);
    }
  }

  lemma TasksAfterTaking(slots: seq<seq<Item>>, next: nat)
    requires next < |slots|
    ensures AllTasks(slots[next := []]) + Bag(slots[next]) == AllTasks(slots)
  {
    ReplaceSlot(slots, next, []);
    assert AllTasks(slots) + Bag([]) == AllTasks(slots);
  }

  lemma TruncatedIsWhole(x: int, step: int)
    requires step > 0
    ensures (x - x % step) % step == 0
  {
    RemainderIs(x - x % step, step, x / step, 0);
  }

  class Wheel {
    const tick: int
    const slots: array<seq<Item>>
    var position: nat
    var current: Time

    function Face(): Dial
      reads this
    {
      Dial(slots.Length, position, current, tick)
    }

    ghost predicate Placed(exact: bool)
      reads this, slots
    {
      Face().Ok() && AllPlaced(exact, Face(), slots[..])
    }

    ghost predicate Valid()
      reads this, slots
    {
      Placed(false)
    }

    /** No task's count overflowed: every item fires exactly when it is due. */
    ghost predicate OnTime()
      reads this, slots
    {
      Placed(true)
    }

    ghost function View(): Agenda
      reads this, slots
    {
      Agenda(current, AllTasks(slots[..]))
    }

    constructor (size: int, tick: Int64, now: Time)
      ensures Valid() && OnTime() && fresh(slots)
      ensures View().pending == multiset{} && current <= now < current + this.tick
      ensures (current - ZERO_TIME) % this.tick == 0
      ensures this.tick == (if tick <= 0 then 1_000_000_000 else tick) && slots.Length == if size < 2 then 2 else size
    {
      var width := if size < 2 then 2 else size;
      var step := if tick <= 0 then 1_000_000_000 else tick;
      this.tick := step;
      this.slots := new seq<Item>[width](_ => []);
      position := 0;
      current := now - (now - ZERO_TIME) % step;
      TruncatedIsWhole(now - ZERO_TIME, step);
      new;
      EmptySlotsPlaced(true, Face(), slots[..]);
      EmptySlotsPlaced(false, Face(), slots[..]);
    }

    method Append(slot: nat, item: Item, ghost exact: bool)
      requires Placed(exact) && slot < slots.Length && WellPlaced(exact, Face(), slot, item)
      modifies slots
      ensures Placed(exact)
      ensures View() == old(View()).(pending := old(View()).pending + multiset{item.task})
    {
      AppendToSlot(slots[..], slot, item);
      SlotsGrow(exact, Face(), slots[..], slot, item);
      slots[slot] := slots[slot] + [item];
      assert slots[..] == old(slots[..])[slot := old(slots[..])[slot] + [item]];
    }

    /** `exact` asks to keep the wheel on time, for tasks that do not overflow. */
    method Place(task: Task, ghost exact: bool)
      requires Placed(exact) && (exact ==> !Overflows(task.deadline, current, tick))
      modifies slots
      ensures Placed(exact)
      ensures View() == old(View()).(pending := old(View()).pending + multiset{task})
    {
      var n := slots.Length;
      var ticks := Ticks(task.deadline, current, tick);
      TicksAreDue(task.deadline, current, tick);
      PlacedToFire(n, position, ticks);
      var slot := (position + ticks % n) % n;
      var rounds := (ticks - 1) / n;
      Append(slot, Item(task, rounds), exact);
    }

    method Schedule(task: Task)
      requires Valid()
      modifies slots
      ensures Valid()
      ensures old(OnTime()) && !Overflows(task.deadline, current, tick) ==> OnTime()
      ensures View() == old(View()).(pending := old(View()).pending + multiset{task})
    {
      ghost var exact := OnTime() && !Overflows(task.deadline, current, tick);
      Place(task, exact);
      if exact {
        ExactIsPlaced(Face(), slots[..]);
      }
    }

    /** Moves the wheel on by one tick and empties the slot it reaches. */
    method TakeSlot(ghost exact: bool) returns (items: seq<Item>)
      requires Placed(exact)
      modifies this, slots
      ensures Placed(exact) && Face() == old(Face()).Next() && AllTaken(exact, Face(), items)
      ensures AllAfter(View().pending, current)
      ensures View().pending + Bag(items) == old(View()).pending
    {
      ghost var before, dial := slots[..], Face().Next();
      var next := Following(position, slots.Length);
      SlotsAfterTick(exact, Face(), before);
      TasksAfterTaking(before, next);
      assert next == dial.position < |before|;
      assert AllPlaced(exact, dial, before[next := []]) && AllTaken(exact, dial, before[next]);
      current := current + tick;
      position := next;
      items := slots[position];
      slots[position] := [];
      assert slots[..] == before[next := []];
      assert Face() == dial;
    }

    /** One item of the slot just reached: back for another round, scheduled again
        because its deadline is still ahead, or delivered. With no overflow the
        second never happens. */
    method Settle(scheduled: Item, ghost exact: bool) returns (deliver: bool, ghost again: bool)
      requires Placed(exact) && Taken(exact, Face(), scheduled)
      modifies slots
      ensures Placed(exact) && (exact ==> !again)
      ensures deliver ==> scheduled.task.deadline <= current && View() == old(View())
      ensures !deliver ==> scheduled.task.deadline > current
                           && View() == old(View()).(pending := old(View()).pending + multiset{scheduled.task})
    {
      deliver, again := false, false;
      if scheduled.rounds > 0 {
        Append(position, scheduled.(rounds := scheduled.rounds - 1), exact);
      } else if scheduled.task.deadline > current {
        again := true;
        Place(scheduled.task, exact);
      } else {
        deliver := true;
      }
    }

    method Drain(taken: seq<Item>, ghost exact: bool) returns (due: seq<Task>, ghost rescheduled: bool)
      requires Placed(exact) && AllTaken(exact, Face(), taken)
      modifies slots
      ensures Placed(exact) && (exact ==> !rescheduled)
      ensures multiset(due) == Ready(taken, current)
      ensures View().pending == old(View()).pending + Later(taken, current)
    {
      var items := taken;
      due, rescheduled := [], false;
      ghost var before, pending := View().pending, View().pending;
      while items != []
        invariant Placed(exact) && (exact ==> !rescheduled)
        invariant AllTaken(exact, Face(), items)
        invariant View() == Agenda(current, pending)
        invariant multiset(due) + Ready(items, current) == Ready(taken, current)
        invariant pending + Later(items, current) == before + Later(taken, current)
        decreases |items|
      {
        var scheduled := items[0];
        items := items[1..];
        var deliver, again := Settle(scheduled, exact);
        rescheduled := rescheduled || again;
        if deliver {
          MoveTask(multiset(due), scheduled.task, Ready(items, current));
          due := due + [scheduled.task];
        } else {
          MoveTask(pending, scheduled.task, Later(items, current));
          pending := pending + multiset{scheduled.task};
        }
      }
    }

    /** The lock-held part of one round of Advance. */
    method Tick() returns (due: seq<Task>, ghost rescheduled: bool)
      requires Valid()
      modifies this, slots
      ensures Valid()
      ensures Ticked(old(View()), multiset(due), View(), tick)
      ensures old(OnTime()) ==> OnTime() && !rescheduled
    {
      ghost var exact := OnTime();
      var items := TakeSlot(exact);
      SplitByDeadline(View().pending, items, current);
      due, rescheduled := Drain(items, exact);
      if exact {
        ExactIsPlaced(Face(), slots[..]);
      }
    }

    method Pending() returns (total: nat)
      requires Valid()
      ensures total == |View().pending|
    {
      total := 0;
      for i := 0 to slots.Length
        invariant total == |AllTasks(slots[..i])|
      {
        assert slots[..i + 1][..i] == slots[..i];
        BagSize(slots[i]);
        total := total + |slots[i]|;
      }
      assert slots[..slots.Length] == slots[..];
    }
  }

  lemma MoveTask(done: multiset<Task>, task: Task, rest: multiset<Task>)
    ensures done + multiset{task} + rest == done + (multiset{task} + rest)
  {}

  lemma {:induction false} SplitBag(items: seq<Item>, current: Time, t: Task)
    ensures Ready(items, current)[t] == if t.deadline <= current then Bag(items)[t] else 0
    ensures Later(items, current)[t] == if t.deadline <= current then 0 else Bag(items)[t]
  {
    if items != [] {
      SplitBag(items[1..], current, t);
    }
  }

  lemma SplitByDeadline(rest: multiset<Task>, items: seq<Item>, current: Time)
    requires AllAfter(rest, current)
    ensures forall t :: Ready(items, current)[t] == if t.deadline <= current then (rest + Bag(items))[t] else 0
    ensures forall t :: (rest + Later(items, current))[t] == if t.deadline <= current then 0 else (rest + Bag(items))[t]
  {
    forall t { SplitBag(items, current, t); }
  }

  lemma {:induction false} BagSize(items: seq<Item>)
    ensures |Bag(items)| == |items|
  {
    if items != [] {
      BagSize(items[1..]);
    }
  }

  // ---- Runs --------------------------------------------------------------

  datatype Event = Scheduled(task: Task) | Advanced(due: multiset<Task>)

  ghost predicate Happens(before: Agenda, e: Event, after: Agenda, tick: int) {
    match e
    case Scheduled(task) => after == before.(pending := before.pending + multiset{task})
    case Advanced(due) => Ticked(before, due, after, tick)
  }

  ghost predicate Trace(states: seq<Agenda>, events: seq<Event>, tick: int) {
    && |states| == |events| + 1
    && forall i :: 0 <= i < |events| ==> Happens(states[i], events[i], states[i + 1], tick)
  }

  function TicksIn(events: seq<Event>): nat {
    if events == [] then 0
    else TicksIn(events[..|events| - 1]) + if events[|events| - 1].Advanced? then 1 else 0
  }

  function DeliveriesOf(t: Task, events: seq<Event>): nat {
    if events == [] then 0
    else DeliveriesOf(t, events[..|events| - 1]) + if events[|events| - 1].Advanced? then events[|events| - 1].due[t]
         else 0
  }

  /** In any interleaving of scheduling and ticks, a task scheduled once is delivered
      exactly once: at tick max(1, ceil((deadline - current) / tick)) after it was
      scheduled, and until then it stays pending. */
  lemma {:induction false} DeliveredOnceWhenDue(states: seq<Agenda>, events: seq<Event>, t: Task, tick: int)
    requires tick > 0 && Trace(states, events, tick)
    requires events != [] && events[0] == Scheduled(t) && states[0].pending[t] == 0
    requires forall i :: 0 < i < |events| ==> events[i] != Scheduled(t)
    ensures var due, last := Due(t.deadline, states[0].current, tick), states[|events|];
            && DeliveriesOf(t, events) == (if TicksIn(events) >= due then 1 else 0)
            && last.pending[t] == 1 - DeliveriesOf(t, events)
            && (TicksIn(events) < due ==> Due(t.deadline, last.current, tick) == due - TicksIn(events))
  {
    if |events| > 1 {
      var init := events[..|events| - 1];
      DeliveredOnceWhenDue(states[..|states| - 1], init, t, tick);
      assert Happens(states[|init|], events[|init|], states[|init| + 1], tick);
    } else {
      assert events[..0] == [];
      assert Happens(states[0], events[0], states[1], tick);
    }
  }
}
