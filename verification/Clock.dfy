/** The hybrid logical clock (backend/internal/clock/hlc.go): strictly increasing
    under any wall clock, and never far ahead of it. */
module Clock {
  import opened Ordering
  import opened Versions

  /** The last millisecond's last logical value: the clock can go no further. */
  predicate Saturated(v: Version) { v.physical == MAX_INT64 && v.logical == MAX_UINT64 }

  function Max(a: int, b: int): int { if a < b then b else a }

  /** nextLogical: count up, carrying into the millisecond on uint64 overflow. */
  function NextLogical(physical: Int64, logical: UInt64): (Int64, UInt64) {
    if logical != MAX_UINT64 then (physical, logical + 1)
    else if physical != MAX_INT64 then (physical + 1, 0)
    else (physical, MAX_UINT64)
  }

  function VersionAfter(physical: Int64, logical: UInt64, nodeId: string): Version {
    var next := NextLogical(physical, logical);
    Version(next.0, next.1, nodeId)
  }

  function NowAfter(nodeId: string, last: Version, wall: Int64): Version {
    if wall > last.physical then Version(wall, 0, nodeId)
    else VersionAfter(last.physical, last.logical, nodeId)
  }

  function ObserveAfter(nodeId: string, last: Version, wall: Int64, remote: Version): Version {
    var physical := Max(wall, Max(last.physical, remote.physical));
    if physical == last.physical && physical == remote.physical then
      VersionAfter(physical, Max(last.logical, remote.logical), nodeId)
    else if physical == last.physical then VersionAfter(physical, last.logical, nodeId)
    else if physical == remote.physical then VersionAfter(physical, remote.logical, nodeId)
    else Version(physical, 0, nodeId)
  }

  predicate TooFarAhead(skewMillis: nat, wall: Int64, remote: Version) {
    remote.physical > WrapInt64(wall + skewMillis)
  }

  datatype Observation = Observed(now: Version) | InvalidVersion | ClockTooFarAhead

  class Hlc {
    const nodeId: string
    const skewMillis: nat
    var last: Version

    constructor (nodeId: string, skewMillis: nat)
      ensures this.nodeId == nodeId && this.skewMillis == skewMillis && last == ZERO_VERSION
    {
      this.nodeId, this.skewMillis := nodeId, skewMillis;
      last := ZERO_VERSION;
    }

    method Now(wall: Int64) returns (v: Version)
      modifies this
      ensures v == last == NowAfter(nodeId, old(last), wall)
      ensures !Saturated(old(last)) ==> Before(old(last), v)
    {
      NowIsLater(nodeId, last, wall);
      if wall > last.physical {
        last := Version(wall, 0, nodeId);
        return last;
      }
      last := last.(physical := Max(last.physical, wall));
      var next := NextLogical(last.physical, last.logical);
      last := last.(physical := next.0, logical := next.1);
      last := last.(origin := nodeId);
      v := last;
    }

    method Observe(wall: Int64, remote: Version) returns (r: Observation)
      modifies this
      ensures !ValidVersion(remote) ==> r == InvalidVersion
      ensures ValidVersion(remote) && TooFarAhead(skewMillis, wall, remote) ==> r == ClockTooFarAhead
      ensures ValidVersion(remote) && !TooFarAhead(skewMillis, wall, remote) ==>
                r == Observed(last) && last == ObserveAfter(nodeId, old(last), wall, remote)
      ensures !r.Observed? ==> last == old(last)
      ensures ValidVersion(remote) && wall + skewMillis <= MAX_INT64 ==>
                (r.Observed? <==> remote.physical - wall <= skewMillis)
      ensures ValidVersion(remote) && wall + skewMillis > MAX_INT64 && skewMillis <= MAX_INT64 ==> r == ClockTooFarAhead
    {
      if ValidVersion(remote) {
        AcceptedWithinSkew(skewMillis, wall, remote);
      }
      if !ValidVersion(remote) {
        return InvalidVersion;
      }
      if remote.physical > WrapInt64(wall + skewMillis) {
        return ClockTooFarAhead;
      }
      var localPhysical := last.physical;
      var physical: Int64 := Max(wall, Max(localPhysical, remote.physical));
      var logical: UInt64 := 0;
      if physical == localPhysical && physical == remote.physical {
        var next := NextLogical(physical, Max(last.logical, remote.logical));
        physical, logical := next.0, next.1;
      } else if physical == localPhysical {
        var next := NextLogical(physical, last.logical);
        physical, logical := next.0, next.1;
      } else if physical == remote.physical {
        var next := NextLogical(physical, remote.logical);
        physical, logical := next.0, next.1;
      }
      last := Version(physical, logical, nodeId);
      r := Observed(last);
    }
  }

  // ---- One step ----------------------------------------------------------

  /** The clock's own values carry its node id; before any, it reads zero. */
  predicate Own(nodeId: string, last: Version) { last == ZERO_VERSION || last.origin == nodeId }

  /** Now moves strictly forward exactly while the clock is not saturated. */
  lemma NowIsLater(nodeId: string, last: Version, wall: Int64)
    ensures !Saturated(last) ==> Before(last, NowAfter(nodeId, last, wall))
    ensures Saturated(last) && last.origin == nodeId ==> NowAfter(nodeId, last, wall) == last
  {}

  /** Observe moves past the local clock and past the remote version alike. */
  lemma ObserveIsLater(nodeId: string, last: Version, wall: Int64, remote: Version)
    ensures !Saturated(last) ==> Before(last, ObserveAfter(nodeId, last, wall, remote))
    ensures !Saturated(remote) ==> Before(remote, ObserveAfter(nodeId, last, wall, remote))
    ensures Saturated(last) && last.origin == nodeId ==> ObserveAfter(nodeId, last, wall, remote) == last
    ensures Saturated(remote) ==> Saturated(ObserveAfter(nodeId, last, wall, remote))
  {}

  lemma StaysOwn(nodeId: string, last: Version, wall: Int64, remote: Version)
    ensures Own(nodeId, NowAfter(nodeId, last, wall)) && Own(nodeId, ObserveAfter(nodeId, last, wall, remote))
  {}

  lemma SaturatedIsLast(a: Version, b: Version)
    requires !Saturated(a) && Saturated(b)
    ensures Before(a, b)
  {}

  // ---- Runs --------------------------------------------------------------

  datatype ClockCall = NowAt(wall: Int64) | ObserveAt(wall: Int64, remote: Version)

  predicate Issues(skewMillis: nat, r: ClockCall) {
    r.ObserveAt? ==> ValidVersion(r.remote) && !TooFarAhead(skewMillis, r.wall, r.remote)
  }

  function Advance(nodeId: string, skewMillis: nat, last: Version, r: ClockCall): Version {
    if !Issues(skewMillis, r) then last
    else match r
      case NowAt(wall) => NowAfter(nodeId, last, wall)
      case ObserveAt(wall, remote) => ObserveAfter(nodeId, last, wall, remote)
  }

  /** The clock after a run, which is also the value its last issuing call returned. */
  function After(nodeId: string, skewMillis: nat, run: seq<ClockCall>): Version {
    if run == [] then ZERO_VERSION
    else Advance(nodeId, skewMillis, After(nodeId, skewMillis, run[..|run| - 1]), run[|run| - 1])
  }

  /** One call: never back, and stuck only at the last value. */
  lemma AdvanceIsMonotone(nodeId: string, skewMillis: nat, last: Version, call: ClockCall)
    requires Own(nodeId, last)
    ensures var next := Advance(nodeId, skewMillis, last, call);
            Own(nodeId, next) && AtMost(last, next) && (Saturated(last) ==> next == last)
  {
    VersionsAntisymmetric(last, last);
    NowIsLater(nodeId, last, call.wall);
    StaysOwn(nodeId, last, call.wall, last);
    if call.ObserveAt? {
      ObserveIsLater(nodeId, last, call.wall, call.remote);
      StaysOwn(nodeId, last, call.wall, call.remote);
    }
  }

  lemma {:induction false} RunIsOwn(nodeId: string, skewMillis: nat, run: seq<ClockCall>)
    ensures Own(nodeId, After(nodeId, skewMillis, run))
  {
    if run != [] {
      RunIsOwn(nodeId, skewMillis, run[..|run| - 1]);
      AdvanceIsMonotone(nodeId, skewMillis, After(nodeId, skewMillis, run[..|run| - 1]), run[|run| - 1]);
    }
  }

  lemma {:induction false} RunIsMonotone(nodeId: string, skewMillis: nat, run: seq<ClockCall>, i: nat)
    requires i <= |run|
    ensures Own(nodeId, After(nodeId, skewMillis, run))
    ensures AtMost(After(nodeId, skewMillis, run[..i]), After(nodeId, skewMillis, run))
    ensures Saturated(After(nodeId, skewMillis, run[..i]))
            ==> After(nodeId, skewMillis, run) == After(nodeId, skewMillis, run[..i])
  {
    RunIsOwn(nodeId, skewMillis, run);
    if i == |run| {
      assert run[..i] == run;
      VersionsAntisymmetric(After(nodeId, skewMillis, run), After(nodeId, skewMillis, run));
    } else {
      var init := run[..|run| - 1];
      assert init[..i] == run[..i];
      RunIsMonotone(nodeId, skewMillis, init, i);
      AdvanceIsMonotone(nodeId, skewMillis, After(nodeId, skewMillis, init), run[|run| - 1]);
      VersionsTransitive(After(nodeId, skewMillis, run[..i]), After(nodeId, skewMillis, init),
                         After(nodeId, skewMillis, run));
    }
  }

  /** Over any run, with wall clocks jumping anywhere, a later call returns a
      strictly greater version exactly unless the earlier one was saturated. */
  lemma RunIsStrict(nodeId: string, skewMillis: nat, run: seq<ClockCall>, i: nat)
    requires i < |run| && Issues(skewMillis, run[|run| - 1])
    ensures Before(After(nodeId, skewMillis, run[..i]), After(nodeId, skewMillis, run))
            <==> !Saturated(After(nodeId, skewMillis, run[..i]))
  {
    var init, last := run[..|run| - 1], run[|run| - 1];
    var early, before := After(nodeId, skewMillis, run[..i]), After(nodeId, skewMillis, init);
    assert init[..i] == run[..i];
    RunIsMonotone(nodeId, skewMillis, init, i);
    RunIsMonotone(nodeId, skewMillis, run, i);
    if !Saturated(early) {
      NowIsLater(nodeId, before, last.wall);
      if last.ObserveAt? {
        ObserveIsLater(nodeId, before, last.wall, last.remote);
      }
      if Saturated(before) {
        SaturatedIsLast(early, before);
      }
      RunIsMonotone(nodeId, skewMillis, run, |init|);
      VersionsTransitive(early, before, After(nodeId, skewMillis, run));
    }
  }

  /** Every version the clock ever accepted from a peer stays behind it. */
  lemma RunPassesObserved(nodeId: string, skewMillis: nat, run: seq<ClockCall>, i: nat)
    requires i < |run| && run[i].ObserveAt? && Issues(skewMillis, run[i]) && !Saturated(run[i].remote)
    ensures Before(run[i].remote, After(nodeId, skewMillis, run))
  {
    var upTo := run[..i + 1];
    assert upTo[..|upTo| - 1] == run[..i] && upTo[|upTo| - 1] == run[i];
    ObserveIsLater(nodeId, After(nodeId, skewMillis, run[..i]), run[i].wall, run[i].remote);
    RunIsMonotone(nodeId, skewMillis, run, i + 1);
    VersionsTransitive(run[i].remote, After(nodeId, skewMillis, upTo), After(nodeId, skewMillis, run));
  }

  /** The clock moved past the wall, itself and the remote: it carried. */
  predicate Carried(before: Version, after: Version, r: ClockCall) {
    && after.physical > r.wall && after.physical > before.physical
    && (r.ObserveAt? ==> after.physical > r.remote.physical)
  }

  /** Which takes a full logical counter, locally or in the remote version. */
  lemma CarriesOnlyWhenFull(nodeId: string, skewMillis: nat, last: Version, r: ClockCall)
    requires Carried(last, Advance(nodeId, skewMillis, last, r), r)
    ensures last.logical == MAX_UINT64 || (r.ObserveAt? && r.remote.logical == MAX_UINT64)
  {}

  function Carries(nodeId: string, skewMillis: nat, run: seq<ClockCall>): nat {
    if run == [] then 0
    else
      var init := run[..|run| - 1];
      var before, after := After(nodeId, skewMillis, init), After(nodeId, skewMillis, run);
      Carries(nodeId, skewMillis, init) + if Carried(before, after, run[|run| - 1]) then 1 else 0
  }

  function LargestWall(run: seq<ClockCall>): int {
    if run == [] then 0 else Max(LargestWall(run[..|run| - 1]), run[|run| - 1].wall)
  }

  /** The clock is never further ahead of the largest wall reading than the allowed
      skew, plus one millisecond for each time the logical counter wrapped. */
  lemma {:induction false} RunStaysNearWall(nodeId: string, skewMillis: nat, run: seq<ClockCall>)
    ensures After(nodeId, skewMillis, run).physical
            <= LargestWall(run) + skewMillis + Carries(nodeId, skewMillis, run)
  {
    if run != [] {
      RunStaysNearWall(nodeId, skewMillis, run[..|run| - 1]);
    }
  }

  // ---- What the clock does, in milliseconds ------------------------------

  /** A remote version is accepted exactly when it is at most the allowed skew ahead of the
      wall; and if that sum does not fit in 64 bits, none is. */
  lemma AcceptedWithinSkew(skewMillis: nat, wall: Int64, remote: Version)
    requires ValidVersion(remote)
    ensures wall + skewMillis <= MAX_INT64 ==> (TooFarAhead(skewMillis, wall, remote)
                                                <==> remote.physical - wall > skewMillis)
    ensures wall + skewMillis > MAX_INT64 && skewMillis <= MAX_INT64 ==> TooFarAhead(skewMillis, wall, remote)
  {
    if wall + skewMillis > MAX_INT64 && skewMillis <= MAX_INT64 {
      var low := wall + skewMillis - 0x1_0000_0000_0000_0000 + 0x8000_0000_0000_0000;
      assert (low + 0x1_0000_0000_0000_0000) % 0x1_0000_0000_0000_0000 == low;
    }
  }

  /** Earlier in milliseconds, or in the counter of the same millisecond. */
  predicate PairBefore(a: Version, b: Version) {
    a.physical < b.physical || (a.physical == b.physical && a.logical < b.logical)
  }

  /** Now is this node's least version at or past the wall and later than the last. */
  lemma NowIsLeast(nodeId: string, last: Version, wall: Int64)
    requires !Saturated(last)
    ensures var now := NowAfter(nodeId, last, wall);
            && now.origin == nodeId && now.physical >= wall && PairBefore(last, now)
            && forall v: Version :: v.physical >= wall && PairBefore(last, v) ==> !PairBefore(v, now)
  {}

  /** Observe is this node's least version at or past the wall, later than the last and
      later than the one received. */
  lemma ObserveIsLeast(nodeId: string, last: Version, wall: Int64, remote: Version)
    requires !Saturated(last) && !Saturated(remote)
    ensures var now := ObserveAfter(nodeId, last, wall, remote);
            && now.origin == nodeId && now.physical >= wall && PairBefore(last, now) && PairBefore(remote, now)
            && forall v: Version ::
                 v.physical >= wall && PairBefore(last, v) && PairBefore(remote, v) ==> !PairBefore(v, now)
  {}
}
