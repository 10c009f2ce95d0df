/** The automation policy engine: a debouncer for the power source and a
    hysteresis machine for the battery percentage.

    `PolicyFields` is the value of every field, `Step` the effect of one call on
    that value, and the class `PolicyState` is the object whose methods are
    proved to have exactly that effect.  What the engine guarantees over whole
    call logs is in PolicyLog.dfy and the files after it. */
module Policy {
  import opened Common

  datatype Preset = AcPreset | BatteryPreset | RecoveryPreset

  datatype Action = ApplyFor(source: PowerSource) | ApplyRecovery

  datatype Rule = Rule(lower: u8, upper: Option<u8>)

  /** A battery percentage as a 32-bit float may carry it. */
  datatype Percent = NotANumber | Infinite(negative: bool) | Finite(value: real)

  datatype PolicyFields = PolicyFields(
    enabled: bool,
    paused: bool,
    lastApplyAt: Option<u64>,
    lastSource: Option<PowerSource>,
    debounce: u64,
    candidate: Option<PowerSource>,
    candidateSince: Option<u64>,
    stable: Option<PowerSource>,
    active: Option<Preset>,
    pending: Option<Preset>,
    batteryCandidate: Option<Preset>,
    batteryCandidateSince: Option<u64>,
    rule: Option<Rule>)

  datatype Call =
    | SetEnabled(on: bool)
    | SetManualOverride(pause: bool)
    | Resume
    | Reconfigure
    | Confirm(preset: Preset)
    | RequestCurrentRule(at: u64)
    | ObserveSource(at: u64, source: Option<PowerSource>, thresholdEnabled: bool)
    | ObserveBattery(at: u64, percent: Option<Percent>, under: Rule, recoveryAvailable: bool)

  function Fresh(debounce: u64): PolicyFields {
    PolicyFields(false, false, None, None, debounce, None, None, None, None, None, None, None, None)
  }

  function ActionOf(p: Preset): Action {
    match p
    case AcPreset => ApplyFor(OnAc)
    case BatteryPreset => ApplyFor(OnBattery)
    case RecoveryPreset => ApplyRecovery
  }

  /** Forget both dwell timers. */
  function DropCandidates(s: PolicyFields): PolicyFields {
    s.(candidate := None, candidateSince := None,
       batteryCandidate := None, batteryCandidateSince := None)
  }

  /** Forget both dwell timers and everything learnt from them. */
  function Restarted(s: PolicyFields): PolicyFields {
    DropCandidates(s).(stable := None, active := None, pending := None)
  }

  /** The preset a valid reading asks for; readings inside the band, outside
      0..=100, missing or not finite ask for nothing. */
  function Zone(percent: Option<Percent>, rule: Rule, recoveryAvailable: bool): Option<Preset> {
    match percent
    case Some(Finite(v)) =>
      if !(0.0 <= v <= 100.0) then None
      else if v <= rule.lower as real then Some(BatteryPreset)
      else if rule.upper.Some? && v >= rule.upper.value as real then
        if recoveryAvailable then Some(RecoveryPreset) else None
      else None
    case _ => None
  }

  function SourceAction(s: PowerSource, thresholdEnabled: bool): seq<Action> {
    if s.OnBattery? && thresholdEnabled then [] else [ApplyFor(s)]
  }

  /** The preset that is waiting to be confirmed after the source settles. */
  function SourcePreset(s: PowerSource, thresholdEnabled: bool): Option<Preset> {
    if s.OnAc? then Some(AcPreset) else if thresholdEnabled then None else Some(BatteryPreset)
  }

  function StepSource(s: PolicyFields, at: u64, source: Option<PowerSource>, thresholdEnabled: bool)
    : (PolicyFields, seq<Action>)
  {
    if source.None? then
      (DropCandidates(s).(stable := None, pending := None), [])
    else
      var seen := s.(lastSource := source);
      if !s.enabled || s.paused then (seen, [])
      else if s.stable == source then (seen.(candidate := None, candidateSince := None), [])
      else if s.candidate != source then (seen.(candidate := source, candidateSince := Some(at)), [])
      else if SatSub(at, s.candidateSince.GetOr(at)) < s.debounce then (seen, [])
      else
        (DropCandidates(seen).(stable := source,
                               pending := SourcePreset(source.value, thresholdEnabled),
                               lastApplyAt := Some(at)),
         SourceAction(source.value, thresholdEnabled))
  }

  /** A reading under a new rule first drops what the old rule had started. */
  function UnderRule(s: PolicyFields, rule: Rule): PolicyFields {
    if s.rule == Some(rule) then s
    else s.(rule := Some(rule), batteryCandidate := None, batteryCandidateSince := None, pending := None)
  }

  /** What the reading asks for, given that thresholds only matter while the
      engine runs on settled battery power. */
  function Target(s: PolicyFields, percent: Option<Percent>, rule: Rule, recoveryAvailable: bool): Option<Preset> {
    if s.enabled && !s.paused && s.stable == Some(OnBattery) then Zone(percent, rule, recoveryAvailable)
    else None
  }

  lemma TargetInNumbers(s: PolicyFields, percent: Option<Percent>, rule: Rule, recoveryAvailable: bool)
    ensures Target(s, percent, rule, recoveryAvailable) ==
      if s.enabled && !s.paused && s.stable == Some(OnBattery)
         && percent.Some? && percent.value.Finite? && 0.0 <= percent.value.value <= 100.0 then
        if percent.value.value <= rule.lower as real then Some(BatteryPreset)
        else if rule.upper.Some? && percent.value.value >= rule.upper.value as real && recoveryAvailable
        then Some(RecoveryPreset) else None
      else None
  {
  }

  function StepBattery(s: PolicyFields, at: u64, percent: Option<Percent>, rule: Rule, recoveryAvailable: bool)
    : (PolicyFields, seq<Action>)
  {
    var r := UnderRule(s, rule);
    var target := Target(s, percent, rule, recoveryAvailable);
    var idle := r.(batteryCandidate := None, batteryCandidateSince := None);
    if target.None? || r.active == target || r.pending == target then (idle, [])
    else if r.batteryCandidate != target then
      (r.(batteryCandidate := target, batteryCandidateSince := Some(at)), [])
    else if SatSub(at, r.batteryCandidateSince.GetOr(at)) < r.debounce then (r, [])
    else (idle.(pending := target, lastApplyAt := Some(at)), [ActionOf(target.value)])
  }

  function Step(s: PolicyFields, c: Call): (PolicyFields, seq<Action>) {
    match c
    case SetEnabled(on) => (if s.enabled == on then s else Restarted(s).(enabled := on), [])
    case SetManualOverride(pause) =>
      (if s.paused == pause then s
       else if pause then DropCandidates(s).(paused := true)
       else Restarted(s).(paused := false), [])
    case Resume => (Restarted(s).(paused := false), [])
    case Reconfigure => (Restarted(s).(rule := None), [])
    case Confirm(p) => (s.(active := Some(p), pending := None), [])
    case RequestCurrentRule(at) =>
      if !s.enabled || s.paused || s.active.None? then (s, [])
      else (s.(lastApplyAt := Some(at)), [ActionOf(s.active.value)])
    case ObserveSource(at, source, thresholdEnabled) => StepSource(s, at, source, thresholdEnabled)
    case ObserveBattery(at, percent, rule, recovery) => StepBattery(s, at, percent, rule, recovery)
  }

  datatype PolicyEvent =
    | PowerSourceChanged(at: u64, source: PowerSource)
    | ManualOverrideEnabled(at: u64)
    | ManualOverrideDisabled(at: u64)

  class PolicyState {
    var autoEnabled: bool
    var manualOverride: bool
    var lastApplyAtMs: Option<u64>
    var lastPowerSource: Option<PowerSource>
    var debounceMs: u64
    var candidatePowerSource: Option<PowerSource>
    var candidateSinceMs: Option<u64>
    var lastStablePowerSource: Option<PowerSource>
    var activePreset: Option<Preset>
    var pendingPreset: Option<Preset>
    var batteryCandidatePreset: Option<Preset>
    var batteryCandidateSinceMs: Option<u64>
    var batteryRule: Option<Rule>

    function Fields(): PolicyFields
      reads this
    {
      PolicyFields(autoEnabled, manualOverride, lastApplyAtMs, lastPowerSource, debounceMs,
                   candidatePowerSource, candidateSinceMs, lastStablePowerSource, activePreset,
                   pendingPreset, batteryCandidatePreset, batteryCandidateSinceMs, batteryRule)
    }

    constructor (debounce: u64)
      ensures Fields() == Fresh(debounce)
    {
      autoEnabled, manualOverride := false, false;
      lastApplyAtMs, lastPowerSource, debounceMs := None, None, debounce;
      candidatePowerSource, candidateSinceMs, lastStablePowerSource := None, None, None;
      activePreset, pendingPreset := None, None;
      batteryCandidatePreset, batteryCandidateSinceMs, batteryRule := None, None, None;
    }

    method SetAutoEnabled(enabled: bool)
      modifies this
      ensures Fields() == Step(old(Fields()), SetEnabled(enabled)).0
    {
      if autoEnabled != enabled {
        autoEnabled := enabled;
        candidatePowerSource, candidateSinceMs := None, None;
        batteryCandidatePreset, batteryCandidateSinceMs := None, None;
        lastStablePowerSource, activePreset, pendingPreset := None, None, None;
      }
    }

    method SetPaused(paused: bool)
      modifies this
      ensures Fields() == Step(old(Fields()), SetManualOverride(paused)).0
    {
      if manualOverride == paused {
        return;
      }
      manualOverride := paused;
      candidatePowerSource, candidateSinceMs := None, None;
      batteryCandidatePreset, batteryCandidateSinceMs := None, None;
      if !paused {
        lastStablePowerSource, activePreset, pendingPreset := None, None, None;
      }
    }

    method ResumeAutomation()
      modifies this
      ensures Fields() == Step(old(Fields()), Resume).0
    {
      manualOverride := false;
      candidatePowerSource, candidateSinceMs := None, None;
      batteryCandidatePreset, batteryCandidateSinceMs := None, None;
      lastStablePowerSource, activePreset, pendingPreset := None, None, None;
    }

    method ResetForReconfiguration()
      modifies this
      ensures Fields() == Step(old(Fields()), Reconfigure).0
    {
      candidatePowerSource, candidateSinceMs := None, None;
      lastStablePowerSource, activePreset, pendingPreset := None, None, None;
      batteryCandidatePreset, batteryCandidateSinceMs := None, None;
      batteryRule := None;
    }

    method ConfirmPresetApplied(preset: Preset)
      modifies this
      ensures Fields() == Step(old(Fields()), Confirm(preset)).0
    {
      activePreset := Some(preset);
      pendingPreset := None;
    }

    method RequestRule(at: u64) returns (actions: seq<Action>)
      modifies this
      ensures (Fields(), actions) == Step(old(Fields()), RequestCurrentRule(at))
    {
      if !autoEnabled || manualOverride || activePreset.None? {
        return [];
      }
      lastApplyAtMs := Some(at);
      actions := match activePreset.value
        case AcPreset => [ApplyFor(OnAc)]
        case BatteryPreset => [ApplyFor(OnBattery)]
        case RecoveryPreset => [ApplyRecovery];
    }

    method ObservePowerSource(at: u64, source: Option<PowerSource>, thresholdEnabled: bool)
      returns (actions: seq<Action>)
      modifies this
      ensures (Fields(), actions) == Step(old(Fields()), ObserveSource(at, source, thresholdEnabled))
    {
      if source.None? {
        candidatePowerSource, candidateSinceMs := None, None;
        batteryCandidatePreset, batteryCandidateSinceMs := None, None;
        lastStablePowerSource, pendingPreset := None, None;
        return [];
      }
      lastPowerSource := source;
      if !autoEnabled || manualOverride {
        return [];
      }
      if lastStablePowerSource == source {
        candidatePowerSource, candidateSinceMs := None, None;
        return [];
      }
      if candidatePowerSource != source {
        candidatePowerSource, candidateSinceMs := source, Some(at);
        return [];
      }
      if SatSub(at, candidateSinceMs.GetOr(at)) < debounceMs {
        return [];
      }
      lastStablePowerSource := source;
      candidatePowerSource, candidateSinceMs := None, None;
      batteryCandidatePreset, batteryCandidateSinceMs := None, None;
      pendingPreset := None;
      actions := [];
      if source.value.OnAc? {
        actions := [ApplyFor(OnAc)];
      } else if !thresholdEnabled {
        pendingPreset := Some(BatteryPreset);
        actions := [ApplyFor(OnBattery)];
      }
      if source.value.OnAc? {
        pendingPreset := Some(AcPreset);
      }
      lastApplyAtMs := Some(at);
    }

    method ObserveBatteryThreshold(at: u64, percent: Option<Percent>, lower: u8, upper: Option<u8>,
                                   recoveryAvailable: bool)
      returns (actions: seq<Action>)
      modifies this
      ensures (Fields(), actions)
           == Step(old(Fields()), ObserveBattery(at, percent, Rule(lower, upper), recoveryAvailable))
    {
      hide Zone, Target;
      var rule := Rule(lower, upper);
      TargetInNumbers(Fields(), percent, rule, recoveryAvailable);
      if batteryRule != Some(rule) {
        batteryRule := Some(rule);
        batteryCandidatePreset, batteryCandidateSinceMs := None, None;
        pendingPreset := None;
      }
      var target: Option<Preset> := None;
      if autoEnabled && !manualOverride && lastStablePowerSource == Some(OnBattery)
         && percent.Some? && percent.value.Finite? && 0.0 <= percent.value.value <= 100.0 {
        var value := percent.value.value;
        if value <= lower as real {
          target := Some(BatteryPreset);
        } else if upper.Some? && value >= upper.value as real {
          target := if recoveryAvailable then Some(RecoveryPreset) else None;
        }
      }
      if target.None? {
        batteryCandidatePreset, batteryCandidateSinceMs := None, None;
        return [];
      }
      if activePreset == target || pendingPreset == target {
        batteryCandidatePreset, batteryCandidateSinceMs := None, None;
        return [];
      }
      if batteryCandidatePreset != target {
        batteryCandidatePreset, batteryCandidateSinceMs := target, Some(at);
        return [];
      }
      if SatSub(at, batteryCandidateSinceMs.GetOr(at)) < debounceMs {
        return [];
      }
      pendingPreset := target;
      batteryCandidatePreset, batteryCandidateSinceMs := None, None;
      lastApplyAtMs := Some(at);
      actions := match target.value
        case AcPreset => [ApplyFor(OnAc)]
        case BatteryPreset => [ApplyFor(OnBattery)]
        case RecoveryPreset => [ApplyRecovery];
    }

    method HandleEvent(event: PolicyEvent) returns (actions: seq<Action>)
      modifies this
      ensures event.PowerSourceChanged? ==>
        (Fields(), actions) == Step(old(Fields()), ObserveSource(event.at, Some(event.source), false))
      ensures event.ManualOverrideEnabled? ==>
        (Fields(), actions) == Step(old(Fields()), SetManualOverride(true))
      ensures event.ManualOverrideDisabled? ==>
        (Fields(), actions) == Step(old(Fields()), SetManualOverride(false))
    {
      match event
      case PowerSourceChanged(at, source) =>
        actions := ObservePowerSource(at, Some(source), false);
      case ManualOverrideEnabled(_) =>
        SetPaused(true);
        actions := [];
      case ManualOverrideDisabled(_) =>
        SetPaused(false);
        actions := [];
    }
  }
}
