/** What the freshness barrier guarantees over every log of events. */
module FreshnessRuns {
  import opened Common
  import opened Freshness

  ghost function State(log: seq<Event>, n: nat): FreshnessFields
    requires n <= |log|
  {
    if n == 0 then Initial else Step(State(log, n - 1), log[n - 1]).0
  }

  ghost function DecisionAt(log: seq<Event>, k: nat): Decision
    requires k < |log|
  {
    Step(State(log, k), log[k]).1
  }

  ghost predicate HasSample(log: seq<Event>, k: nat)
    requires k < |log|
  {
    log[k].Observe? && log[k].sample.Some?
  }

  ghost function SampleAt(log: seq<Event>, k: nat): Sample
    requires k < |log| && HasSample(log, k)
  {
    log[k].sample.value
  }

  ghost predicate EligibleAt(log: seq<Event>, k: nat)
    requires k < |log|
  {
    HasSample(log, k) && DecisionAt(log, k).Eligible?
  }

  ghost predicate InvalidatedAt(log: seq<Event>, k: nat)
    requires k < |log|
  {
    DecisionAt(log, k).Invalidated?
  }

  // ---------------------------------------------------------------- reading the log

  // What follows speaks of the events alone, not of states or decisions.

  /** A sample that can be trusted as such, whatever came before it. */
  ghost predicate Good(x: Sample) {
    0 < x.updated && x.consistent && x.current
  }

  /** A stale or inconsistent sample. */
  ghost predicate BadAt(log: seq<Event>, k: nat)
    requires k < |log|
  {
    HasSample(log, k) && !Good(SampleAt(log, k))
  }

  /** A good sample that is older than one that counted. */
  ghost predicate RegressesAt(log: seq<Event>, k: nat)
    requires k < |log|
    decreases k, 1
  {
    HasSample(log, k) && Good(SampleAt(log, k)) && SampleAt(log, k).updated < Watermark(log, k)
  }

  /** A good sample from the other source than the known one. */
  ghost predicate SwitchAt(log: seq<Event>, k: nat)
    requires k < |log|
    decreases k, 1
  {
    HasSample(log, k) && Good(SampleAt(log, k)) && SampleAt(log, k).updated >= Watermark(log, k)
    && KnownSource(log, k).Some? && KnownSource(log, k) != Some(SampleAt(log, k).source)
  }

  /** A good sample that may be believed: awake, from the known source, not older than
      what counted, and newer than an open invalidation and all that counted before it. */
  ghost predicate PassesAt(log: seq<Event>, k: nat)
    requires k < |log|
    decreases k, 1
  {
    HasSample(log, k) &&
    var x, open := SampleAt(log, k), OpenInvalidation(log, k);
    && Good(x)
    && !Asleep(log, k)
    && (KnownSource(log, k).None? || KnownSource(log, k) == Some(x.source))
    && x.updated >= Watermark(log, k)
    && (open.Some? ==> x.updated > open.value && x.updated > Watermark(log, k))
  }

  /** An event that makes what was seen before it untrustworthy: an invalidation, a
      change of sleep, a regression, a switch of source, and a missing or bad sample
      unless an invalidation is open already. */
  ghost predicate InvalidatesAt(log: seq<Event>, k: nat)
    requires k < |log|
    decreases k, 2
  {
    match log[k]
    case Invalidate(_, _) => true
    case PrepareForSleep(preparing, _) => !(preparing && Asleep(log, k))
    case Observe(sample, _) =>
      if sample.None? || BadAt(log, k) then OpenInvalidation(log, k).None?
      else RegressesAt(log, k) || SwitchAt(log, k)
  }

  /** The newest update time among the samples that counted. */
  ghost function Watermark(log: seq<Event>, n: nat): nat
    requires n <= |log|
    decreases n, 0
  {
    if n == 0 then 0
    else if BadAt(log, n - 1) || PassesAt(log, n - 1) || SwitchAt(log, n - 1)
    then Max(Watermark(log, n - 1), SampleAt(log, n - 1).updated)
    else Watermark(log, n - 1)
  }

  /** The source of the last good sample that counted. */
  ghost function KnownSource(log: seq<Event>, n: nat): Option<PowerSource>
    requires n <= |log|
    decreases n, 0
  {
    if n == 0 then None
    else if PassesAt(log, n - 1) || SwitchAt(log, n - 1) then Some(SampleAt(log, n - 1).source)
    else KnownSource(log, n - 1)
  }

  /** The clock at the last invalidation that no believed sample has answered. */
  ghost function OpenInvalidation(log: seq<Event>, n: nat): Option<u64>
    requires n <= |log|
    decreases n, 0
  {
    if n == 0 || PassesAt(log, n - 1) then None
    else if InvalidatesAt(log, n - 1) then Some(log[n - 1].now)
    else OpenInvalidation(log, n - 1)
  }

  ghost predicate Asleep(log: seq<Event>, n: nat)
    requires n <= |log|
  {
    n > 0 &&
    match log[n - 1]
    case PrepareForSleep(preparing, _) => preparing
    case Invalidate(ClockResume, _) => false
    case _ => Asleep(log, n - 1)
  }

  // ---------------------------------------------------------------- invariants

  /** Every reachable state is determined by the log in this way.  In particular
      the floor is exactly the later of the invalidation's clock and the
      watermark, and the expected source is always the known one. */
  ghost predicate Reachable(log: seq<Event>, n: nat)
    requires n <= |log|
  {
    var s := State(log, n);
    && s.lastUpdate.GetOr(0) == Watermark(log, n)
    && s.lastSource == KnownSource(log, n)
    && s.suspended == Asleep(log, n)
    && (s.suspended ==> s.barrier.Some?)
    && s.barrier.Some? == OpenInvalidation(log, n).Some?
    && (s.barrier.Some? ==>
          s.barrier.value.expected == s.lastSource
          && s.barrier.value.floor == Max(OpenInvalidation(log, n).value, Watermark(log, n)))
  }

  /** The decision on a sample in a reachable state. */
  lemma SampleDecision(log: seq<Event>, n: nat)
    requires n < |log| && HasSample(log, n) && Reachable(log, n)
    ensures var (s, x) := (State(log, n), SampleAt(log, n));
      StepSample(s, x, log[n].now) ==
        if !Good(x) then Blocked(s.(lastUpdate := Some(MaxTime(s.lastUpdate, x.updated))), log[n].now, Some(x.updated))
        else if RegressesAt(log, n) then Raise(s, log[n].now, None, s.lastSource)
        else if SwitchAt(log, n) then Switched(s, x, log[n].now)
        else if PassesAt(log, n) then Accepted(s, x)
        else (s, if s.suspended then Suspended(s.generation) else AwaitingRefresh(s.generation))
  {
  }

  lemma ReachableSample(log: seq<Event>, n: nat)
    requires n < |log| && HasSample(log, n) && Reachable(log, n)
    ensures Reachable(log, n + 1)
  {
    SampleDecision(log, n);
  }

  lemma ReachableStep(log: seq<Event>, n: nat)
    requires n < |log| && Reachable(log, n)
    ensures Reachable(log, n + 1)
  {
    if HasSample(log, n) {
      ReachableSample(log, n);
    } else {
      var s, e := State(log, n), log[n];
      assert State(log, n + 1) == Step(s, e).0 && DecisionAt(log, n) == Step(s, e).1;
    }
  }

  lemma ReachableAtStart(log: seq<Event>)
    ensures Reachable(log, 0)
  {
  }

  lemma {:induction false} ReachableAlways(log: seq<Event>, n: nat)
    requires n <= |log|
    ensures Reachable(log, n)
  {
    hide Reachable;
    if n == 0 {
      ReachableAtStart(log);
    } else {
      ReachableAlways(log, n - 1);
      ReachableStep(log, n - 1);
    }
  }

  /** The branch for a barrier that expects another source than the known one is
      never taken. */
  lemma SecondMismatchUnreachable(log: seq<Event>, n: nat, x: Sample)
    requires n <= |log|
    ensures var s := State(log, n);
      !(s.barrier.Some? && s.barrier.value.expected.Some? && s.barrier.value.expected.value != x.source
        && (s.lastSource.None? || s.lastSource.value == x.source))
  {
    ReachableAlways(log, n);
  }

  /** Main result: the barrier declares a sample eligible, or invalidates, exactly
      when the events say so. */
  lemma DecisionsFollowLog(log: seq<Event>, k: nat)
    requires k < |log|
    ensures EligibleAt(log, k) <==> PassesAt(log, k)
    ensures InvalidatedAt(log, k) <==> InvalidatesAt(log, k)
  {
    ReachableAlways(log, k);
    if HasSample(log, k) { SampleDecision(log, k); }
  }

  // ---------------------------------------------------------------- safety

  lemma {:induction false} WatermarkGrows(log: seq<Event>, i: nat, n: nat)
    requires i <= n <= |log|
    ensures Watermark(log, i) <= Watermark(log, n)
    decreases n - i
  {
    if i < n {
      WatermarkGrows(log, i, n - 1);
    }
  }

  /** An eligible sample is at least as new as every sample that counted before. */
  lemma EligibleNotOlder(log: seq<Event>, i: nat, k: nat)
    requires i < k < |log| && EligibleAt(log, k) && (BadAt(log, i) || EligibleAt(log, i) || SwitchAt(log, i))
    ensures SampleAt(log, i).updated <= SampleAt(log, k).updated
  {
    DecisionsFollowLog(log, i);
    DecisionsFollowLog(log, k);
    WatermarkGrows(log, i + 1, k);
  }

  ghost predicate LastInvalidation(log: seq<Event>, i: nat, n: nat)
    requires n <= |log|
  {
    i < n && InvalidatedAt(log, i) && forall j | i < j < n :: !InvalidatedAt(log, j)
  }

  lemma {:induction false} OpenSince(log: seq<Event>, i: nat, n: nat)
    requires n <= |log| && LastInvalidation(log, i, n) && (forall j | i < j < n :: !EligibleAt(log, j))
    ensures OpenInvalidation(log, n) == Some(log[i].now)
  {
    hide Step;
    DecisionsFollowLog(log, n - 1);
    if n > i + 1 { OpenSince(log, i, n - 1); }
  }

  /** The first eligible sample after an event, if the log has one. */
  lemma {:induction false} FirstEligible(log: seq<Event>, i: nat, k: nat) returns (f: nat)
    requires i < k < |log| && EligibleAt(log, k)
    ensures i < f <= k && EligibleAt(log, f) && forall j | i < j < f :: !EligibleAt(log, j)
    decreases k
  {
    if j :| i < j < k && EligibleAt(log, j) {
      f := FirstEligible(log, i, j);
    } else {
      f := k;
    }
  }

  /** Main result: an eligible sample is strictly newer than the clock of the most
      recent invalidation before it, and strictly newer than every sample that
      counted before that invalidation. */
  lemma NewerThanInvalidation(log: seq<Event>, i: nat, k: nat)
    requires i < k < |log| && EligibleAt(log, k) && LastInvalidation(log, i, k)
    ensures SampleAt(log, k).updated > log[i].now
    ensures forall h | 0 <= h <= i && (BadAt(log, h) || EligibleAt(log, h) || SwitchAt(log, h)) ::
      SampleAt(log, k).updated > SampleAt(log, h).updated
  {
    hide Step, OpenInvalidation, KnownSource, Asleep;
    var f := FirstEligible(log, i, k);
    OpenSince(log, i, f);
    DecisionsFollowLog(log, f);
    if f < k { EligibleNotOlder(log, f, k); }
    forall h | 0 <= h <= i && (BadAt(log, h) || EligibleAt(log, h) || SwitchAt(log, h))
      ensures SampleAt(log, k).updated > SampleAt(log, h).updated
    {
      DecisionsFollowLog(log, h);
      WatermarkGrows(log, h + 1, f);
    }
  }

  lemma {:induction false} BadKeepsOpen(log: seq<Event>, i: nat, n: nat)
    requires i < n <= |log| && BadAt(log, i) && (forall j | i < j < n :: !EligibleAt(log, j))
    ensures OpenInvalidation(log, n).Some?
  {
    hide Step;
    DecisionsFollowLog(log, n - 1);
    if n > i + 1 { BadKeepsOpen(log, i, n - 1); }
  }

  /** Main result: an eligible sample is strictly newer than every stale or
      inconsistent sample seen before it. */
  lemma NewerThanBadSamples(log: seq<Event>, i: nat, k: nat)
    requires i < k < |log| && EligibleAt(log, k) && BadAt(log, i)
    ensures SampleAt(log, k).updated > SampleAt(log, i).updated
  {
    var f := FirstEligible(log, i, k);
    BadKeepsOpen(log, i, f);
    DecisionsFollowLog(log, f);
    WatermarkGrows(log, i + 1, f);
    if f < k { EligibleNotOlder(log, f, k); }
  }

  lemma GenerationStep(log: seq<Event>, n: nat)
    requires n < |log|
    ensures State(log, n + 1).generation ==
      if InvalidatedAt(log, n) then SatAdd(State(log, n).generation, 1) else State(log, n).generation
    ensures DecisionAt(log, n).generation == State(log, n + 1).generation
  {
    var s, e := State(log, n), log[n];
    assert State(log, n + 1) == Step(s, e).0 && DecisionAt(log, n) == Step(s, e).1;
    match e
    case Observe(None, now) =>
    case Observe(Some(x), now) =>
      if !Good(x) {
      } else if s.lastUpdate.Some? && x.updated < s.lastUpdate.value {
      } else {
      }
    case PrepareForSleep(_, _) =>
    case Invalidate(_, _) =>
  }

  lemma {:induction false} GenerationGrows(log: seq<Event>, i: nat, n: nat)
    requires i <= n <= |log|
    ensures State(log, i).generation <= State(log, n).generation
    decreases n - i
  {
    hide Step;
    if i < n {
      GenerationGrows(log, i, n - 1);
      GenerationStep(log, n - 1);
    }
  }

  lemma NoInvalidationBetween(log: seq<Event>, i: nat, j: nat, n: nat)
    requires i <= j < n <= |log| && State(log, i).generation == State(log, n).generation < U64_MAX
    ensures !InvalidatedAt(log, j)
  {
    GenerationGrows(log, i, j);
    GenerationStep(log, j);
    GenerationGrows(log, j + 1, n);
  }

  lemma {:induction false} SourceKept(log: seq<Event>, i: nat, n: nat)
    requires i < n <= |log| && EligibleAt(log, i) && (forall j | i < j < n :: !InvalidatedAt(log, j))
    ensures KnownSource(log, n) == Some(SampleAt(log, i).source)
  {
    hide Step;
    DecisionsFollowLog(log, n - 1);
    if n > i + 1 { SourceKept(log, i, n - 1); }
  }

  /** Main result: below saturation, eligible samples of one generation share one source. */
  lemma OneSourcePerGeneration(log: seq<Event>, i: nat, k: nat)
    requires i < k < |log| && EligibleAt(log, i) && EligibleAt(log, k)
    requires DecisionAt(log, i).generation == DecisionAt(log, k).generation < U64_MAX
    ensures SampleAt(log, i).source == SampleAt(log, k).source
  {
    hide Step, Watermark, OpenInvalidation, Asleep;
    GenerationStep(log, i);
    GenerationStep(log, k);
    forall j | i < j < k ensures !InvalidatedAt(log, j) {
      NoInvalidationBetween(log, i + 1, j, k);
    }
    SourceKept(log, i, k);
    DecisionsFollowLog(log, k);
  }

  lemma {:induction false} StaysAsleep(log: seq<Event>, i: nat, n: nat)
    requires i < n <= |log| && log[i].PrepareForSleep? && log[i].preparing
    requires forall j | i < j < n ::
      !(log[j].PrepareForSleep? && !log[j].preparing) && !(log[j].Invalidate? && log[j].event.ClockResume?)
    ensures Asleep(log, n)
  {
    if n > i + 1 {
      StaysAsleep(log, i, n - 1);
    }
  }

  /** Main result: nothing is eligible between going to sleep and waking up. */
  lemma NothingEligibleAsleep(log: seq<Event>, i: nat, k: nat)
    requires i < k < |log| && log[i].PrepareForSleep? && log[i].preparing
    requires forall j | i < j < k ::
      !(log[j].PrepareForSleep? && !log[j].preparing) && !(log[j].Invalidate? && log[j].event.ClockResume?)
    ensures !EligibleAt(log, k)
  {
    StaysAsleep(log, i, k);
    if HasSample(log, k) { DecisionsFollowLog(log, k); }
  }

  // ---------------------------------------------------------------- confirmation

  /** Main result: after any events, a sample is confirmed exactly when it is good, no
      invalidation is open, the machine is awake, the sample's source is the known one
      and its update time the newest that counted. */
  lemma ConfirmedFollowsLog(log: seq<Event>, n: nat, x: Sample)
    requires n <= |log|
    ensures EligibleNow(State(log, n), x) <==>
      && Good(x) && OpenInvalidation(log, n).None? && !Asleep(log, n)
      && KnownSource(log, n) == Some(x.source) && Watermark(log, n) == x.updated
  {
    ReachableAlways(log, n);
  }

  /** Sample `k` is the last eligible one, and nothing has invalidated it since. */
  ghost predicate Stands(log: seq<Event>, k: nat, n: nat)
    requires n <= |log|
  {
    k < n && EligibleAt(log, k) && forall j | k < j < n :: !EligibleAt(log, j) && !InvalidatedAt(log, j)
  }

  /** Main result: a sample is confirmed exactly when it is good and has the source and
      the update time of the last eligible sample, which nothing has invalidated since. */
  lemma {:induction false} ConfirmedIsLastEligible(log: seq<Event>, n: nat, x: Sample)
    requires n <= |log|
    ensures EligibleNow(State(log, n), x) <==>
      Good(x) && exists k: nat :: Stands(log, k, n) && SampleAt(log, k).source == x.source
                                  && SampleAt(log, k).updated == x.updated
  {
    if n > 0 {
      hide Step, Watermark, OpenInvalidation, KnownSource, Asleep;
      var p := n - 1;
      ConfirmedIsLastEligible(log, p, x);
      StandsStep(log, p, n);
      ConfirmedStep(log, p, x);
    }
  }

  lemma StandsStep(log: seq<Event>, n: nat, m: nat)
    requires n < |log| && m == n + 1
    ensures EligibleAt(log, n) ==> forall k: nat :: Stands(log, k, m) <==> k == n
    ensures InvalidatedAt(log, n) ==> forall k: nat :: !Stands(log, k, m)
    ensures !EligibleAt(log, n) && !InvalidatedAt(log, n) ==>
      forall k: nat :: Stands(log, k, m) <==> Stands(log, k, n)
  {
    hide Step;
  }

  lemma ConfirmedStep(log: seq<Event>, n: nat, x: Sample)
    requires n < |log|
    ensures EligibleAt(log, n) ==>
      (EligibleNow(State(log, n + 1), x) <==>
         Good(x) && SampleAt(log, n).source == x.source && SampleAt(log, n).updated == x.updated)
    ensures InvalidatedAt(log, n) ==> !EligibleNow(State(log, n + 1), x)
    ensures !EligibleAt(log, n) && !InvalidatedAt(log, n) ==>
      !EligibleNow(State(log, n), x) && !EligibleNow(State(log, n + 1), x)
  {
    DecisionsFollowLog(log, n);
    ReachableAlways(log, n);
  }

  // ---------------------------------------------------------------- decisions in full

  /** How many events invalidated. */
  ghost function Invalidations(log: seq<Event>, n: nat): nat
    requires n <= |log|
  {
    if n == 0 then 0 else Invalidations(log, n - 1) + if InvalidatesAt(log, n - 1) then 1 else 0
  }

  /** That number as far as 64 bits hold it. */
  ghost function GenerationAt(log: seq<Event>, n: nat): u64
    requires n <= |log|
  {
    if Invalidations(log, n) <= 0xFFFF_FFFF_FFFF_FFFF then Invalidations(log, n) else 0xFFFF_FFFF_FFFF_FFFF
  }

  lemma {:induction false} GenerationFollowsLog(log: seq<Event>, n: nat)
    requires n <= |log|
    ensures State(log, n).generation == GenerationAt(log, n)
  {
    hide Step, InvalidatesAt, InvalidatedAt, DecisionAt;
    if n > 0 {
      GenerationFollowsLog(log, n - 1);
      GenerationStep(log, n - 1);
      DecisionsFollowLog(log, n - 1);
    }
  }

  /** Main result: the whole decision on every event, in terms of the events alone; its
      generation is the number of invalidations so far, as far as 64 bits hold it. */
  lemma DecisionExactly(log: seq<Event>, k: nat)
    requires k < |log|
    ensures DecisionAt(log, k) ==
      if PassesAt(log, k) then Eligible(GenerationAt(log, k))
      else if InvalidatesAt(log, k) then Invalidated(GenerationAt(log, k + 1))
      else if Asleep(log, k) then Suspended(GenerationAt(log, k))
      else AwaitingRefresh(GenerationAt(log, k))
  {
    ReachableAlways(log, k);
    DecisionsFollowLog(log, k);
    GenerationFollowsLog(log, k);
    GenerationFollowsLog(log, k + 1);
    GenerationStep(log, k);
    if !EligibleAt(log, k) && !InvalidatedAt(log, k) { KindOfRefusal(log, k); }
  }

  lemma KindOfRefusal(log: seq<Event>, k: nat)
    requires k < |log| && !EligibleAt(log, k) && !InvalidatedAt(log, k)
    ensures if Asleep(log, k) then DecisionAt(log, k).Suspended? else DecisionAt(log, k).AwaitingRefresh?
  {
    ReachableAlways(log, k);
  }

  // ---------------------------------------------------------------- progress

  /** Eligible means that the sample is what `is_eligible` then confirms. */
  lemma EligibleIsConfirmed(log: seq<Event>, k: nat)
    requires k < |log| && EligibleAt(log, k)
    ensures EligibleNow(State(log, k + 1), SampleAt(log, k))
  {
    ReachableAlways(log, k);
  }

  /** Main result: awake, two good samples of one source always end eligible when
      the first does not regress and the second is newer than the first, than the
      clock at the first, and than the floor that stood before. */
  lemma TwoSamplesRecover(log: seq<Event>, n: nat, a: Sample, b: Sample, nowA: u64, nowB: u64)
    requires n <= |log| && !State(log, n).suspended
    requires Good(a) && Good(b) && a.source == b.source
    requires a.updated >= State(log, n).lastUpdate.GetOr(0)
    requires b.updated > a.updated && b.updated > nowA
    requires State(log, n).barrier.Some? ==> b.updated > State(log, n).barrier.value.floor
    ensures Step(Step(State(log, n), Observe(Some(a), nowA)).0, Observe(Some(b), nowB)).1.Eligible?
  {
    ReachableAlways(log, n);
  }
}
