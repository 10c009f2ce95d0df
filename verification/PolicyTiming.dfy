/** How often the policy engine may act: emissions are spaced by the debounce
    time, and threshold emissions alternate between the two presets. */
module PolicyTiming {
  import opened Common
  import opened Policy
  import opened PolicyLog
  import opened PolicyThreshold

  // ---------------------------------------------------------------- spacing

  ghost predicate Timed(c: Call) {
    c.ObserveSource? || c.ObserveBattery?
  }

  /** The time of the last observation among the first `n` calls. */
  ghost function Clock(log: seq<Call>, n: nat, start: u64): u64
    requires n <= |log|
  {
    if n == 0 then start else if Timed(log[n - 1]) then log[n - 1].at else Clock(log, n - 1, start)
  }

  ghost predicate NonDecreasing(log: seq<Call>, n: nat, start: u64)
    requires n <= |log|
  {
    forall k: nat :: k < n && Timed(log[k]) ==> Clock(log, k, start) <= log[k].at
  }

  /** How many times a source became settled. */
  ghost function Settlings(d: u64, log: seq<Call>, n: nat): nat
    requires n <= |log|
  {
    if n == 0 then 0 else Settlings(d, log, n - 1) + if Settles(d, log, n - 1) then 1 else 0
  }

  /** Call `k` is a battery reading that emits an action. */
  ghost predicate ReadingActs(d: u64, log: seq<Call>, k: nat)
    requires k < |log|
  {
    log[k].ObserveBattery? && ActionsAt(d, log, k) != []
  }

  /** How many readings emitted. */
  ghost function ThresholdEmissions(d: u64, log: seq<Call>, n: nat): nat
    requires n <= |log|
  {
    if n == 0 then 0 else ThresholdEmissions(d, log, n - 1) + if ReadingActs(d, log, n - 1) then 1 else 0
  }

  /** All actions emitted by observations, that is, without an explicit request. */
  ghost function AutomaticActions(d: u64, log: seq<Call>, n: nat): nat
    requires n <= |log|
  {
    if n == 0 then 0
    else AutomaticActions(d, log, n - 1) + if Timed(log[n - 1]) then |ActionsAt(d, log, n - 1)| else 0
  }

  /** `count` emissions are paid for by the clock, and a running timer was started
      only after they were. */
  ghost predicate Paid(start: u64, count: nat, d: u64, clock: u64, timer: Option<u64>) {
    start + count * d <= clock
    && (timer.Some? ==> start + count * d <= timer.value <= clock)
  }

  lemma PaidStep(start: u64, count: nat, d: u64, clock: u64, timer: Option<u64>,
                 now: u64, fires: bool, next: Option<u64>)
    requires Paid(start, count, d, clock, timer) && clock <= now
    requires fires ==> timer.Some? && SatSub(now, timer.value) >= d && next.None?
    requires !fires && next.Some? ==> next == timer || next == Some(now)
    ensures Paid(start, if fires then count + 1 else count, d, now, next)
  {
    assert (count + 1) * d == count * d + d;
  }

  ghost function SourceTimer(f: PolicyFields): Option<u64> {
    if f.candidate.Some? then f.candidateSince else None
  }

  ghost function BatteryTimer(f: PolicyFields): Option<u64> {
    if f.batteryCandidate.Some? then f.batteryCandidateSince else None
  }

  /** A source settles only when its timer has run for the debounce time; a timer
      that runs after a call was already running or starts now. */
  lemma SourceTimerStep(d: u64, log: seq<Call>, n: nat)
    requires n < |log|
    ensures var f, g, c := Run(d, log, n), Run(d, log, n + 1), log[n];
      if Settles(d, log, n) then
        SourceTimer(f).Some? && SatSub(c.at, SourceTimer(f).value) >= d && SourceTimer(g).None?
      else
        SourceTimer(g).Some? ==>
          SourceTimer(g) == SourceTimer(f) || (c.ObserveSource? && SourceTimer(g) == Some(c.at))
  {
    if log[n].ObserveSource? && log[n].source.Some? {
      DebouncerRefinesLog(d, log, n);
      var s := log[n].source.value;
      assert StableAgrees(d, log, n, s);
      if Run(d, log, n).stable != Some(s) {
        DweltIsElapsed(d, log, n, s);
        assert CandidateAgrees(d, log, n, s) && SinceAgrees(d, log, n, s);
        if Run(d, log, n).candidate == Some(s) {
          var i: nat :| RunFrom(log, i, n, s);
          var b := StartExists(log, i, n, s);
        }
      }
    }
  }

  lemma StepBatteryTimer(f: PolicyFields, c: Call)
    ensures var (g, actions) := Step(f, c);
      && (BatteryTimer(g).Some? ==>
            BatteryTimer(g) == BatteryTimer(f) || (c.ObserveBattery? && BatteryTimer(g) == Some(c.at)))
      && (c.ObserveBattery? && actions != [] ==>
            f.batteryCandidate.Some? && BatteryTimer(g).None?
            && SatSub(c.at, f.batteryCandidateSince.GetOr(c.at)) >= f.debounce)
  {
  }

  lemma BatteryTimerStep(d: u64, log: seq<Call>, n: nat)
    requires n < |log|
    ensures var f, g, c := Run(d, log, n), Run(d, log, n + 1), log[n];
      if ReadingActs(d, log, n) then
        BatteryTimer(f).Some? && SatSub(c.at, BatteryTimer(f).value) >= d && BatteryTimer(g).None?
      else
        BatteryTimer(g).Some? ==>
          BatteryTimer(g) == BatteryTimer(f) || (c.ObserveBattery? && BatteryTimer(g) == Some(c.at))
  {
    hide Step, ThresholdRefines, StableAgrees, CandidateAgrees, SinceAgrees;
    StepBatteryTimer(Run(d, log, n), log[n]);
    if ReadingActs(d, log, n) {
      DebouncerRefinesLog(d, log, n);
      ThresholdRefinesLog(d, log, n);
      CandidateHasStart(d, log, n, Run(d, log, n).batteryCandidate.value);
    }
  }

  lemma CandidateHasStart(d: u64, log: seq<Call>, n: nat, x: Preset)
    requires n <= |log| && ThresholdRefines(d, log, n) && Run(d, log, n).batteryCandidate == Some(x)
    ensures Run(d, log, n).batteryCandidateSince.Some?
  {
    hide Wants, Emits, BreaksDwell, DwellStart;
    assert DwellAgrees(d, log, n, x) && DwellSinceAgrees(d, log, n, x);
    var i: nat :| DwellFrom(d, log, i, n, x);
    var b := DwellStartExists(d, log, i, n, x);
  }

  lemma {:induction false} Spacing(d: u64, log: seq<Call>, n: nat, start: u64)
    requires n <= |log| && NonDecreasing(log, n, start)
    ensures Paid(start, Settlings(d, log, n), d, Clock(log, n, start), SourceTimer(Run(d, log, n)))
    ensures Paid(start, ThresholdEmissions(d, log, n), d, Clock(log, n, start), BatteryTimer(Run(d, log, n)))
  {
    if n > 0 {
      var p := n - 1;
      Spacing(d, log, p, start);
      SourceTimerStep(d, log, p);
      BatteryTimerStep(d, log, p);
      var was, now := Clock(log, p, start), Clock(log, n, start);
      PaidStep(start, Settlings(d, log, p), d, was, SourceTimer(Run(d, log, p)),
               now, Settles(d, log, p), SourceTimer(Run(d, log, n)));
      PaidStep(start, ThresholdEmissions(d, log, p), d, was, BatteryTimer(Run(d, log, p)),
               now, ReadingActs(d, log, p), BatteryTimer(Run(d, log, n)));
    }
  }

  lemma {:induction false} ActionsAreEmissions(d: u64, log: seq<Call>, n: nat)
    requires n <= |log|
    ensures AutomaticActions(d, log, n) <= Settlings(d, log, n) + ThresholdEmissions(d, log, n)
  {
    if n > 0 {
      ActionsAreEmissions(d, log, n - 1);
      if log[n - 1].ObserveSource? {
        SourceActionsFollowLog(d, log, n - 1);
      }
    }
  }

  /** Main result: with non-decreasing observation times, k settlings and k
      threshold emissions each take at least k debounce times, whatever resets
      occur, so automatic actions number at most twice elapsed / debounce. */
  lemma EmissionSpacing(d: u64, log: seq<Call>, start: u64)
    requires NonDecreasing(log, |log|, start)
    ensures Settlings(d, log, |log|) * d <= Clock(log, |log|, start) - start
    ensures ThresholdEmissions(d, log, |log|) * d <= Clock(log, |log|, start) - start
    ensures AutomaticActions(d, log, |log|) * d <= 2 * (Clock(log, |log|, start) - start)
  {
    var n := |log|;
    Spacing(d, log, n, start);
    ActionsAreEmissions(d, log, n);
    TwiceAsMany(AutomaticActions(d, log, n), Settlings(d, log, n), ThresholdEmissions(d, log, n), d,
                Clock(log, n, start) - start);
  }

  lemma TwiceAsMany(actions: nat, s: nat, t: nat, d: nat, span: int)
    requires actions <= s + t && s * d <= span && t * d <= span
    ensures actions * d <= 2 * span
  {
    assert (s + t) * d == s * d + t * d;
    assert actions * d <= (s + t) * d;
  }

  // ---------------------------------------------------------------- alternation

  /** Calls that neither lose nor change the settled source, reset nothing, bring
      no rule but the given one, and confirm only what is pending. */
  ghost predicate Benign(s: PolicyFields, c: Call, rule: Rule) {
    match c
    case SetEnabled(on) => on == s.enabled
    case SetManualOverride(pause) => pause == s.paused
    case Resume => false
    case Reconfigure => false
    case Confirm(p) => s.pending == Some(p)
    case RequestCurrentRule(_) => true
    case ObserveSource(_, source, _) => source.Some? && Step(s, c).0.stable == s.stable
    case ObserveBattery(_, _, under, _) => under == rule
  }

  ghost predicate AllBenign(s: PolicyFields, calls: seq<Call>, rule: Rule)
    decreases |calls|
  {
    calls == [] || (Benign(s, calls[0], rule) && AllBenign(Step(s, calls[0]).0, calls[1..], rule))
  }

  /** The actions emitted by the battery readings among `calls`, in order. */
  ghost function ReadingActions(s: PolicyFields, calls: seq<Call>): seq<Action>
    decreases |calls|
  {
    if calls == [] then []
    else
      var r := Step(s, calls[0]);
      (if calls[0].ObserveBattery? then r.1 else []) + ReadingActions(r.0, calls[1..])
  }

  ghost predicate Alternates(actions: seq<Action>) {
    && (forall i :: 0 <= i < |actions| ==> actions[i] in {ApplyFor(OnBattery), ApplyRecovery})
    && (forall i :: 0 <= i < |actions| - 1 ==> actions[i] != actions[i + 1])
  }

  /** The last preset asked for: pending, or applied with nothing pending. */
  ghost predicate Asked(s: PolicyFields, x: Preset) {
    s.pending == Some(x) || (s.pending.None? && s.active == Some(x))
  }

  /** The first reading under the rule will not forget a pending preset. */
  ghost predicate KeepsPending(s: PolicyFields, rule: Rule) {
    s.rule == Some(rule) || s.pending.None?
  }

  /** A benign call keeps what was asked for, unless it asks for the other preset. */
  lemma AskedStep(s: PolicyFields, c: Call, rule: Rule, x: Preset)
    requires Benign(s, c, rule) && Asked(s, x) && KeepsPending(s, rule)
    ensures var (t, actions) := Step(s, c);
      KeepsPending(t, rule) &&
      if c.ObserveBattery? && actions != []
      then exists y :: y != x && actions == [ActionOf(y)] && Asked(t, y) && y in {BatteryPreset, RecoveryPreset}
      else Asked(t, x)
  {
    if c.ObserveBattery? {
      var target := Target(s, c.percent, c.under, c.recoveryAvailable);
      if Step(s, c).1 != [] {
        var y := target.value;
        assert y != x && Asked(Step(s, c).0, y);
      }
    }
  }

  /** After `x` was asked for, the first emission is the other preset, and they
      alternate from there. */
  lemma {:induction false} AlternatesAfter(s: PolicyFields, calls: seq<Call>, rule: Rule, x: Preset)
    requires AllBenign(s, calls, rule) && Asked(s, x) && KeepsPending(s, rule)
    ensures Alternates(ReadingActions(s, calls))
    ensures var a := ReadingActions(s, calls);
      a != [] ==>
        && a[0] != ActionOf(x)
        && (x == BatteryPreset ==> a[0] == ApplyRecovery) && (x == RecoveryPreset ==> a[0] == ApplyFor(OnBattery))
    decreases |calls|
  {
    if calls != [] {
      hide Step, Asked, KeepsPending, Benign, Alternates;
      var c := calls[0];
      var r := Step(s, c);
      AskedStep(s, c, rule, x);
      if c.ObserveBattery? && r.1 != [] {
        var y :| y != x && r.1 == [ActionOf(y)] && Asked(r.0, y) && y in {BatteryPreset, RecoveryPreset};
        AlternatesAfter(r.0, calls[1..], rule, y);
        Prepend(ActionOf(y), ReadingActions(r.0, calls[1..]));
        DifferentActions(x, y);
      } else {
        AlternatesAfter(r.0, calls[1..], rule, x);
        assert ReadingActions(s, calls) == [] + ReadingActions(r.0, calls[1..]);
      }
    }
  }

  /** Otherwise the same preset may be asked for again: the first reading under a new
      rule forgets that it is pending. */
  lemma ForgottenRequestRepeats(s: PolicyFields, rule: Rule, at: u64, later: u64)
    requires s.enabled && !s.paused && s.stable == Some(OnBattery) && s.active != Some(BatteryPreset)
    requires Asked(s, BatteryPreset) && !KeepsPending(s, rule) && later >= at && later - at >= s.debounce
    ensures var low := Some(Finite(0.0));
      var calls := [ObserveBattery(at, low, rule, false), ObserveBattery(later, low, rule, false)];
      AllBenign(s, calls, rule) && ReadingActions(s, calls) == [ApplyFor(OnBattery)]
  {
    var low := Some(Finite(0.0));
    var calls := [ObserveBattery(at, low, rule, false), ObserveBattery(later, low, rule, false)];
    assert Zone(low, rule, false) == Some(BatteryPreset);
    var first := Step(s, calls[0]);
    var second := Step(first.0, calls[1]);
    assert calls[1..] == [calls[1]] && [calls[1]][1..] == [];
    assert first.1 == [] && second.1 == [ActionOf(BatteryPreset)];
    assert AllBenign(second.0, [], rule) && AllBenign(first.0, [calls[1]], rule);
    assert ReadingActions(second.0, []) == [] && ReadingActions(first.0, [calls[1]]) == second.1 + [];
  }

  lemma Prepend(a: Action, rest: seq<Action>)
    requires a in {ApplyFor(OnBattery), ApplyRecovery} && Alternates(rest) && (rest != [] ==> rest[0] != a)
    ensures Alternates([a] + rest)
  {
    var s := [a] + rest;
    forall i | 0 <= i < |s| - 1 ensures s[i] != s[i + 1] {
      if i > 0 { assert s[i] == rest[i - 1] && s[i + 1] == rest[i]; }
    }
  }

  lemma DifferentActions(x: Preset, y: Preset)
    requires x != y
    ensures ActionOf(x) != ActionOf(y)
  {
  }

  /** Main result: from any state, through any number of benign calls, threshold
      emissions strictly alternate between the battery and the recovery preset. */
  lemma {:induction false} HysteresisAlternates(s: PolicyFields, calls: seq<Call>, rule: Rule)
    requires AllBenign(s, calls, rule)
    ensures Alternates(ReadingActions(s, calls))
    decreases |calls|
  {
    if calls != [] {
      var c := calls[0];
      var r := Step(s, c);
      if c.ObserveBattery? && r.1 != [] {
        var y := Target(s, c.percent, c.under, c.recoveryAvailable).value;
        assert r.1 == [ActionOf(y)] && Asked(r.0, y);
        AlternatesAfter(r.0, calls[1..], rule, y);
        Prepend(ActionOf(y), ReadingActions(r.0, calls[1..]));
      } else {
        HysteresisAlternates(r.0, calls[1..], rule);
        assert ReadingActions(s, calls) == [] + ReadingActions(r.0, calls[1..]);
      }
    }
  }

  // ---------------------------------------------------------------- inside the band

  /** The state after some calls. */
  ghost function After(s: PolicyFields, calls: seq<Call>): PolicyFields
    decreases |calls|
  {
    if calls == [] then s else After(Step(s, calls[0]).0, calls[1..])
  }

  /** A reading that is missing, not a percentage, or strictly between the limits. */
  ghost predicate InsideBand(c: Call, rule: Rule) {
    c.ObserveBattery? && c.under == rule &&
    match c.percent
    case Some(Finite(v)) =>
      v < 0.0 || v > 100.0 || (rule.lower as real < v && (rule.upper.Some? ==> v < rule.upper.value as real))
    case _ => true
  }

  /** Main result: however long the readings stay inside the band, nothing is emitted
      and nothing changes, except that a dwell that was under way is lost and, under a
      rule that is new, so is a preset pending under the old one. */
  lemma {:induction false} BandKeepsPresets(s: PolicyFields, calls: seq<Call>, rule: Rule)
    requires calls != [] && forall c :: c in calls ==> InsideBand(c, rule)
    ensures ReadingActions(s, calls) == []
    ensures After(s, calls) == s.(rule := Some(rule), batteryCandidate := None, batteryCandidateSince := None,
                                  pending := if s.rule == Some(rule) then s.pending else None)
    decreases |calls|
  {
    var c, rest := calls[0], calls[1..];
    assert InsideBand(c, rule) && Zone(c.percent, rule, c.recoveryAvailable).None?;
    var r := Step(s, c);
    assert r.1 == [];
    if rest != [] {
      BandKeepsPresets(r.0, rest, rule);
    }
    assert ReadingActions(s, calls) == [] + ReadingActions(r.0, rest);
  }
}
