/** The freshness barrier: battery samples count only when they are newer than
    every event that made older samples untrustworthy. */
module Freshness {
  import opened Common

  datatype Sample = Sample(source: PowerSource, updated: u64, consistent: bool, current: bool)

  datatype FreshnessEvent = DaemonStartup | ClockAnomaly | ClockResume | UPowerReconnect

  datatype Decision =
    | Eligible(generation: u64)
    | Invalidated(generation: u64)
    | AwaitingRefresh(generation: u64)
    | Suspended(generation: u64)

  datatype Barrier = Barrier(floor: u64, expected: Option<PowerSource>)

  datatype FreshnessFields = FreshnessFields(
    lastUpdate: Option<u64>,
    lastSource: Option<PowerSource>,
    barrier: Option<Barrier>,
    generation: u64,
    suspended: bool)

  datatype Event =
    | Observe(sample: Option<Sample>, now: u64)
    | PrepareForSleep(preparing: bool, now: u64)
    | Invalidate(event: FreshnessEvent, now: u64)

  const Initial := FreshnessFields(None, None, None, 0, false)

  function MaxTime(a: Option<u64>, b: u64): (r: u64) {
    if a.GetOr(0) >= b then a.GetOr(0) else b
  }

  function Raise(s: FreshnessFields, now: u64, observed: Option<u64>, expected: Option<PowerSource>)
    : (FreshnessFields, Decision)
  {
    var floor: u64 := MaxTime(Some(MaxTime(s.lastUpdate, observed.GetOr(0))), now);
    var generation: u64 := SatAdd(s.generation, 1);
    (s.(barrier := Some(Barrier(floor, expected)), generation := generation), Invalidated(generation))
  }

  function Blocked(s: FreshnessFields, now: u64, observed: Option<u64>): (FreshnessFields, Decision) {
    if s.barrier.None? then Raise(s, now, observed, s.lastSource)
    else
      var b := s.barrier.value;
      var raised :=
        if observed.Some? then s.(barrier := Some(b.(floor := MaxTime(Some(b.floor), observed.value)))) else s;
      (raised, if s.suspended then Suspended(s.generation) else AwaitingRefresh(s.generation))
  }

  function Switched(s: FreshnessFields, x: Sample, now: u64): (FreshnessFields, Decision) {
    var (t, d) := Raise(s, now, Some(x.updated), Some(x.source));
    (t.(lastSource := Some(x.source), lastUpdate := Some(MaxTime(s.lastUpdate, x.updated))), d)
  }

  function Accepted(s: FreshnessFields, x: Sample): (FreshnessFields, Decision) {
    (s.(barrier := None, lastSource := Some(x.source), lastUpdate := Some(x.updated)), Eligible(s.generation))
  }

  function StepSample(s: FreshnessFields, x: Sample, now: u64): (FreshnessFields, Decision) {
    if x.updated == 0 || !x.consistent || !x.current then
      Blocked(s.(lastUpdate := Some(MaxTime(s.lastUpdate, x.updated))), now, Some(x.updated))
    else if s.lastUpdate.Some? && x.updated < s.lastUpdate.value then
      Raise(s, now, None, s.lastSource)
    else if s.lastSource.Some? && s.lastSource.value != x.source then
      Switched(s, x, now)
    else if s.barrier.None? then
      Accepted(s, x)
    else if s.barrier.value.expected.Some? && s.barrier.value.expected.value != x.source then
      Switched(s, x, now)
    else if s.suspended then
      (s, Suspended(s.generation))
    else if x.updated <= s.barrier.value.floor then
      (s, AwaitingRefresh(s.generation))
    else
      Accepted(s, x)
  }

  function Step(s: FreshnessFields, e: Event): (FreshnessFields, Decision) {
    match e
    case Observe(None, now) => Blocked(s, now, None)
    case Observe(Some(x), now) => StepSample(s, x, now)
    case PrepareForSleep(true, now) =>
      if s.suspended then (s, Suspended(s.generation))
      else
        var (t, d) := Raise(s, now, None, s.lastSource);
        (t.(suspended := true), d)
    case PrepareForSleep(false, now) => Raise(s.(suspended := false), now, None, s.lastSource)
    case Invalidate(event, now) =>
      Raise(if event.ClockResume? then s.(suspended := false) else s, now, None, s.lastSource)
  }

  predicate EligibleNow(s: FreshnessFields, x: Sample) {
    s.barrier.None? && !s.suspended && x.consistent && x.current && x.updated > 0
    && s.lastSource == Some(x.source) && s.lastUpdate == Some(x.updated)
  }

  class BatteryFreshnessBarrier {
    var lastUpdateTimeSecs: Option<u64>
    var lastSource: Option<PowerSource>
    var barrier: Option<Barrier>
    var generation: u64
    var suspended: bool

    function Fields(): FreshnessFields
      reads this
    {
      FreshnessFields(lastUpdateTimeSecs, lastSource, barrier, generation, suspended)
    }

    constructor ()
      ensures Fields() == Initial
    {
      lastUpdateTimeSecs, lastSource, barrier, generation, suspended := None, None, None, 0, false;
    }

    method ObserveSample(sample: Option<Sample>, now: u64) returns (d: Decision)
      modifies this
      ensures (Fields(), d) == Step(old(Fields()), Observe(sample, now))
    {
      if sample.None? {
        d := BlockMissing(now, None);
        return;
      }
      var x := sample.value;
      if x.updated == 0 || !x.consistent || !x.current {
        lastUpdateTimeSecs := Some(MaxTime(lastUpdateTimeSecs, x.updated));
        d := BlockMissing(now, Some(x.updated));
        return;
      }
      if lastUpdateTimeSecs.Some? && x.updated < lastUpdateTimeSecs.value {
        d := InvalidateOn(ClockAnomaly, now);
        return;
      }
      if lastSource.Some? && lastSource.value != x.source {
        d := BeginBarrier(now, Some(x.updated), Some(x.source));
        lastSource := Some(x.source);
        lastUpdateTimeSecs := Some(MaxTime(lastUpdateTimeSecs, x.updated));
        return;
      }
      if barrier.Some? {
        if barrier.value.expected.Some? && barrier.value.expected.value != x.source {
          d := BeginBarrier(now, Some(x.updated), Some(x.source));
          lastSource := Some(x.source);
          lastUpdateTimeSecs := Some(MaxTime(lastUpdateTimeSecs, x.updated));
          return;
        }
        if suspended {
          return Suspended(generation);
        }
        if x.updated <= barrier.value.floor {
          return AwaitingRefresh(generation);
        }
        barrier := None;
      }
      lastSource := Some(x.source);
      lastUpdateTimeSecs := Some(x.updated);
      d := Eligible(generation);
    }

    method OnPrepareForSleep(preparing: bool, now: u64) returns (d: Decision)
      modifies this
      ensures (Fields(), d) == Step(old(Fields()), PrepareForSleep(preparing, now))
    {
      if preparing {
        if !suspended {
          d := BeginBarrier(now, None, lastSource);
          suspended := true;
          return;
        }
        return Suspended(generation);
      }
      suspended := false;
      d := BeginBarrier(now, None, lastSource);
    }

    method InvalidateOn(event: FreshnessEvent, now: u64) returns (d: Decision)
      modifies this
      ensures (Fields(), d) == Step(old(Fields()), Invalidate(event, now))
    {
      if event == ClockResume {
        suspended := false;
      }
      d := BeginBarrier(now, None, lastSource);
    }

    method IsEligible(x: Sample) returns (b: bool)
      ensures b == EligibleNow(Fields(), x)
    {
      b := barrier.None? && !suspended && x.consistent && x.current && x.updated > 0
        && Some(x.source) == lastSource && Some(x.updated) == lastUpdateTimeSecs;
    }

    method BlockMissing(now: u64, observed: Option<u64>) returns (d: Decision)
      modifies this
      ensures (Fields(), d) == Blocked(old(Fields()), now, observed)
    {
      if observed.Some? && barrier.Some? {
        barrier := Some(barrier.value.(floor := MaxTime(Some(barrier.value.floor), observed.value)));
      }
      if barrier.None? {
        d := BeginBarrier(now, observed, lastSource);
      } else if suspended {
        d := Suspended(generation);
      } else {
        d := AwaitingRefresh(generation);
      }
    }

    method BeginBarrier(now: u64, observed: Option<u64>, expected: Option<PowerSource>) returns (d: Decision)
      modifies this
      ensures (Fields(), d) == Raise(old(Fields()), now, observed, expected)
    {
      var floor: u64 := MaxTime(Some(MaxTime(lastUpdateTimeSecs, observed.GetOr(0))), now);
      generation := SatAdd(generation, 1);
      barrier := Some(Barrier(floor, expected));
      d := Invalidated(generation);
    }
  }
}
