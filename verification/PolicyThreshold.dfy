/** The battery-threshold half of the policy engine: when exactly it emits, that
    its emissions alternate, and how far apart automatic actions must lie. */
module PolicyThreshold {
  import opened Common
  import opened Policy
  import opened PolicyLog

  // ---------------------------------------------------------------- reading the log

  /** The rule of the last reading, unless a reconfiguration came after it. */
  ghost function RuleAt(log: seq<Call>, n: nat): Option<Rule>
    requires n <= |log|
  {
    if n == 0 then None
    else match log[n - 1]
         case Reconfigure => None
         case ObserveBattery(_, _, rule, _) => Some(rule)
         case _ => RuleAt(log, n - 1)
  }

  ghost predicate RuleChanged(log: seq<Call>, k: nat)
    requires k < |log|
  {
    log[k].ObserveBattery? && RuleAt(log, k) != Some(log[k].under)
  }

  /** Calls that forget which presets were applied and asked for. */
  ghost predicate ForgetsPresets(log: seq<Call>, k: nat)
    requires k < |log|
  {
    EffectiveReset(log, k) && log[k] != SetManualOverride(true)
  }

  /** The preset that was confirmed last and not forgotten since. */
  ghost function AppliedAt(log: seq<Call>, n: nat): Option<Preset>
    requires n <= |log|
  {
    if n == 0 || ForgetsPresets(log, n - 1) then None
    else if log[n - 1].Confirm? then Some(log[n - 1].preset)
    else AppliedAt(log, n - 1)
  }

  ghost predicate Settles(d: u64, log: seq<Call>, k: nat)
    requires k < |log|
  {
    log[k].ObserveSource? && log[k].source.Some? && Stabilises(d, log, k, log[k].source.value)
  }

  /** Reading `k` is a percentage at or below the lower limit of its rule. */
  ghost predicate LowAt(log: seq<Call>, k: nat)
    requires k < |log| && log[k].ObserveBattery?
  {
    && log[k].percent.Some? && log[k].percent.value.Finite?
    && var v := log[k].percent.value.value;
    0.0 <= v <= 100.0 && v <= log[k].under.lower as real
  }

  /** Reading `k` is a percentage above the lower limit and at or above the upper one. */
  ghost predicate HighAt(log: seq<Call>, k: nat)
    requires k < |log| && log[k].ObserveBattery?
  {
    && log[k].percent.Some? && log[k].percent.value.Finite? && log[k].under.upper.Some?
    && var v := log[k].percent.value.value;
    0.0 <= v <= 100.0 && log[k].under.lower as real < v && log[k].under.upper.value as real <= v
  }

  /** What reading `k` asks for. */
  ghost function ZoneAt(log: seq<Call>, k: nat): Option<Preset>
    requires k < |log| && log[k].ObserveBattery?
  {
    if LowAt(log, k) then Some(BatteryPreset)
    else if HighAt(log, k) && log[k].recoveryAvailable then Some(RecoveryPreset)
    else None
  }

  /** The preset that was asked for last, by a settled source or a completed dwell,
      and neither confirmed nor forgotten since. */
  ghost function PendingAt(d: u64, log: seq<Call>, n: nat): Option<Preset>
    requires n <= |log|
    decreases n, 0
  {
    if n == 0 || ForgetsPresets(log, n - 1) then None
    else
      match log[n - 1]
      case Confirm(_) => None
      case ObserveSource(_, source, thresholdEnabled) =>
        if source.None? then None
        else if Settles(d, log, n - 1) then
          if source.value.OnAc? then Some(AcPreset) else if thresholdEnabled then None else Some(BatteryPreset)
        else PendingAt(d, log, n - 1)
      case ObserveBattery(_, _, _, _) =>
        if Emits(d, log, n - 1) then ZoneAt(log, n - 1)
        else if RuleChanged(log, n - 1) then None
        else PendingAt(d, log, n - 1)
      case _ => PendingAt(d, log, n - 1)
  }

  /** `x` is already applied, or asked for under the rule of reading `k`. */
  ghost predicate Held(d: u64, log: seq<Call>, k: nat, x: Preset)
    requires k < |log|
    decreases k, 1
  {
    AppliedAt(log, k) == Some(x) || (PendingAt(d, log, k) == Some(x) && !RuleChanged(log, k))
  }

  /** Reading `k` asks for `x` on settled battery power, and `x` is not held. */
  ghost predicate Wants(d: u64, log: seq<Call>, k: nat, x: Preset): (b: bool)
    requires k < |log|
    ensures b ==> log[k].ObserveBattery?
    decreases k, 2
  {
    log[k].ObserveBattery? && ActiveAt(log, k) && IsStable(d, log, k, OnBattery)
    && ZoneAt(log, k) == Some(x) && !Held(d, log, k, x)
  }

  /** Every reading from `i` up to `n` wants `x`, and nothing came between them. */
  ghost predicate DwellFrom(d: u64, log: seq<Call>, i: nat, n: nat, x: Preset): (b: bool)
    requires n <= |log|
    ensures b ==> i < n && log[i].ObserveBattery?
    decreases n, 3
  {
    i < n && Wants(d, log, i, x) && !Emits(d, log, i)
    && forall k | i < k < n :: !BreaksDwell(d, log, k, x)
  }

  ghost predicate DwellStart(d: u64, log: seq<Call>, i: nat, n: nat, x: Preset): (b: bool)
    requires n <= |log|
    ensures b ==> i < n && log[i].ObserveBattery?
    decreases n, 4
  {
    DwellFrom(d, log, i, n, x) && forall h: nat | h < i :: !DwellFrom(d, log, h, n, x)
  }

  /** Reading `j` ends an unbroken dwell on `x` of at least the debounce time. */
  ghost predicate DwellCompletes(d: u64, log: seq<Call>, j: nat, x: Preset)
    requires j < |log|
    decreases j, 5
  {
    Wants(d, log, j, x) && !RuleChanged(log, j)
    && exists i: nat :: DwellStart(d, log, i, j, x) && Lasts(d, log[i].at, log[j].at)
  }

  /** Reading `k` completes the dwell on what it asks for. */
  ghost predicate Emits(d: u64, log: seq<Call>, k: nat)
    requires k < |log|
    decreases k, 6
  {
    log[k].ObserveBattery? && ZoneAt(log, k).Some? && DwellCompletes(d, log, k, ZoneAt(log, k).value)
  }

  ghost predicate BreaksDwell(d: u64, log: seq<Call>, k: nat, x: Preset)
    requires k < |log|
    decreases k, 7
  {
    EffectiveReset(log, k)
    || (log[k].ObserveSource? && log[k].source.None?)
    || Settles(d, log, k)
    || (log[k].ObserveBattery? && (RuleChanged(log, k) || !Wants(d, log, k, x) || Emits(d, log, k)))
  }

  // ---------------------------------------------------------------- refinement

  ghost predicate HasDwell(d: u64, log: seq<Call>, n: nat, x: Preset)
    requires n <= |log|
  {
    exists i: nat :: DwellFrom(d, log, i, n, x)
  }

  ghost predicate DwellAgrees(d: u64, log: seq<Call>, n: nat, x: Preset)
    requires n <= |log|
  {
    Run(d, log, n).batteryCandidate == Some(x) <==> HasDwell(d, log, n, x)
  }

  ghost predicate DwellSinceAgrees(d: u64, log: seq<Call>, n: nat, x: Preset)
    requires n <= |log|
  {
    var f := Run(d, log, n);
    f.batteryCandidate == Some(x) ==>
      forall i: nat | DwellStart(d, log, i, n, x) :: f.batteryCandidateSince == Some(log[i].at)
  }

  ghost predicate PresetsAgree(d: u64, log: seq<Call>, n: nat)
    requires n <= |log|
  {
    var f := Run(d, log, n);
    f.rule == RuleAt(log, n) && f.active == AppliedAt(log, n) && f.pending == PendingAt(d, log, n)
  }

  /** The fields of the hysteresis machine say exactly what the log says. */
  ghost predicate ThresholdRefines(d: u64, log: seq<Call>, n: nat)
    requires n <= |log|
  {
    PresetsAgree(d, log, n)
    && forall x :: DwellAgrees(d, log, n, x) && DwellSinceAgrees(d, log, n, x)
  }

  lemma {:induction false} DwellStartExists(d: u64, log: seq<Call>, i: nat, n: nat, x: Preset) returns (b: nat)
    requires n <= |log| && DwellFrom(d, log, i, n, x)
    ensures DwellStart(d, log, b, n, x)
    decreases i
  {
    hide Wants, Emits, BreaksDwell;
    if h: nat :| h < i && DwellFrom(d, log, h, n, x) {
      b := DwellStartExists(d, log, h, n, x);
    } else {
      b := i;
    }
  }

  /** A dwell goes on through a call that does not break it. */
  lemma DwellsGoOn(d: u64, log: seq<Call>, n: nat, x: Preset)
    requires n < |log|
    ensures forall h: nat :: DwellFrom(d, log, h, n, x) && !BreaksDwell(d, log, n, x) ==> DwellFrom(d, log, h, n + 1, x)
  {
    hide Wants, Emits, BreaksDwell;
  }

  lemma DwellExtends(d: u64, log: seq<Call>, n: nat, x: Preset)
    requires n < |log|
    ensures HasDwell(d, log, n + 1, x) <==>
      (Wants(d, log, n, x) && !Emits(d, log, n)) || (HasDwell(d, log, n, x) && !BreaksDwell(d, log, n, x))
  {
    hide Wants, Emits, BreaksDwell;
    var m := n + 1;
    DwellsGoOn(d, log, n, x);
    if i: nat :| DwellFrom(d, log, i, n, x) && !BreaksDwell(d, log, n, x) {
      assert DwellFrom(d, log, i, m, x);
    }
    if Wants(d, log, n, x) && !Emits(d, log, n) {
      assert DwellFrom(d, log, n, m, x);
    }
    if i: nat :| i < n && DwellFrom(d, log, i, m, x) {
      assert DwellFrom(d, log, i, n, x);
    }
  }

  lemma StartIsNew(d: u64, log: seq<Call>, n: nat, x: Preset)
    requires n < |log| && DwellStart(d, log, n, n + 1, x)
    ensures !HasDwell(d, log, n, x) || BreaksDwell(d, log, n, x)
  {
    hide Wants, Emits, BreaksDwell;
    DwellsGoOn(d, log, n, x);
  }

  lemma StartSurvives(d: u64, log: seq<Call>, i: nat, n: nat, x: Preset)
    requires i < n < |log| && DwellStart(d, log, i, n + 1, x)
    ensures DwellStart(d, log, i, n, x) && HasDwell(d, log, n, x) && !BreaksDwell(d, log, n, x)
  {
    hide Wants, Emits, BreaksDwell;
    DwellsGoOn(d, log, n, x);
    assert DwellFrom(d, log, i, n, x);
  }

  /** The reading wants `x` exactly when the fields say so. */
  lemma WantsInFields(d: u64, log: seq<Call>, n: nat, x: Preset)
    requires n < |log| && PresetsAgree(d, log, n) && log[n].ObserveBattery?
    ensures var f, c := Run(d, log, n), log[n];
      Wants(d, log, n, x) <==>
        Target(f, c.percent, c.under, c.recoveryAvailable) == Some(x)
        && f.active != Some(x) && UnderRule(f, c.under).pending != Some(x)
  {
    hide AppliedAt, PendingAt, IsStable, RuleAt;
    DebouncerRefinesLog(d, log, n);
    assert StableAgrees(d, log, n, OnBattery);
  }

  /** A dwell completes exactly when the timer in the fields has run long enough. */
  lemma CompletesInFields(d: u64, log: seq<Call>, n: nat, x: Preset)
    requires n < |log| && ThresholdRefines(d, log, n) && log[n].ObserveBattery?
    ensures var f := Run(d, log, n);
      DwellCompletes(d, log, n, x) <==>
        Wants(d, log, n, x) && !RuleChanged(log, n) && f.batteryCandidate == Some(x)
        && Lasts(d, f.batteryCandidateSince.GetOr(log[n].at), log[n].at)
  {
    hide Wants, DwellStart, RuleChanged, Run;
    var f := Run(d, log, n);
    assert DwellAgrees(d, log, n, x) && DwellSinceAgrees(d, log, n, x);
    StartsHaveDwell(d, log, n, x);
    if f.batteryCandidate == Some(x) {
      var i: nat :| DwellFrom(d, log, i, n, x);
      var b := DwellStartExists(d, log, i, n, x);
      assert f.batteryCandidateSince == Some(log[b].at);
    }
  }

  lemma StartsHaveDwell(d: u64, log: seq<Call>, n: nat, x: Preset)
    requires n <= |log|
    ensures forall i: nat :: DwellStart(d, log, i, n, x) ==> i < n && HasDwell(d, log, n, x)
  {
    hide Wants, Emits, BreaksDwell;
  }

  /** A reading emits the action of `x` exactly when it completes a dwell on `x`. */
  lemma EmissionMeansDwell(d: u64, log: seq<Call>, j: nat, x: Preset)
    requires j < |log| && log[j].ObserveBattery?
    requires ThresholdRefines(d, log, j) && Run(d, log, j).debounce == d
    ensures ActionsAt(d, log, j) == [ActionOf(x)] <==> DwellCompletes(d, log, j, x)
  {
    hide Wants, DwellCompletes, AppliedAt, PendingAt;
    WantsInFields(d, log, j, x);
    CompletesInFields(d, log, j, x);
  }

  /** What a reading does in the fields, in terms of the log. */
  lemma EmitsIsAction(d: u64, log: seq<Call>, n: nat)
    requires n < |log| && log[n].ObserveBattery? && ThresholdRefines(d, log, n)
    ensures Emits(d, log, n) <==> ActionsAt(d, log, n) != []
    ensures Emits(d, log, n) ==> Run(d, log, n + 1).pending == ZoneAt(log, n)
  {
    hide DwellCompletes, AppliedAt, PendingAt;
    DebouncerRefinesLog(d, log, n);
    var f, c := Run(d, log, n), log[n];
    var target := Target(f, c.percent, c.under, c.recoveryAvailable);
    if target.Some? { EmissionMeansDwell(d, log, n, target.value); }
    if ZoneAt(log, n).Some? { EmissionMeansDwell(d, log, n, ZoneAt(log, n).value); }
  }

  /** Calls other than readings only ever drop the battery timer, and do so
      exactly when the log breaks the dwell. */
  lemma OtherCallsDropTimer(d: u64, log: seq<Call>, n: nat, x: Preset)
    requires n < |log| && !log[n].ObserveBattery?
    ensures var f, g := Run(d, log, n), Run(d, log, n + 1);
      if BreaksDwell(d, log, n, x) then g.batteryCandidate.None?
      else g.batteryCandidate == f.batteryCandidate && g.batteryCandidateSince == f.batteryCandidateSince
  {
    DebouncerRefinesLog(d, log, n);
    if log[n].ObserveSource? && log[n].source.Some? {
      SettlesInFields(d, log, n);
    }
  }

  lemma SettlesInFields(d: u64, log: seq<Call>, n: nat)
    requires n < |log| && Refines(d, log, n) && log[n].ObserveSource? && log[n].source.Some?
    ensures var f, s := Run(d, log, n), log[n].source.value;
      Settles(d, log, n) <==> f.stable != Some(s) && Elapsed(d, log, n, s)
  {
    var s := log[n].source.value;
    assert StableAgrees(d, log, n, s);
    if Run(d, log, n).stable != Some(s) { DweltIsElapsed(d, log, n, s); }
  }

  lemma PresetsStep(d: u64, log: seq<Call>, n: nat)
    requires n < |log| && ThresholdRefines(d, log, n)
    ensures PresetsAgree(d, log, n + 1)
  {
    hide Emits, Settles;
    DebouncerRefinesLog(d, log, n);
    match log[n] {
      case ObserveBattery(_, _, _, _) => EmitsIsAction(d, log, n);
      case ObserveSource(_, source, _) => if source.Some? { SettlesInFields(d, log, n); }
      case _ =>
    }
  }

  lemma DwellStep(d: u64, log: seq<Call>, n: nat, x: Preset)
    requires n < |log| && ThresholdRefines(d, log, n)
    ensures DwellAgrees(d, log, n + 1, x)
  {
    hide Wants, Emits, HasDwell;
    DwellExtends(d, log, n, x);
    assert DwellAgrees(d, log, n, x);
    if log[n].ObserveBattery? {
      WantsInFields(d, log, n, x);
      EmitsIsAction(d, log, n);
    } else {
      OtherCallsDropTimer(d, log, n, x);
    }
  }

  /** A running timer keeps the time it was started with. */
  lemma TimerKeepsStart(d: u64, log: seq<Call>, n: nat, x: Preset)
    requires n < |log| && ThresholdRefines(d, log, n) && Run(d, log, n + 1).batteryCandidate == Some(x)
    ensures var since := Run(d, log, n + 1).batteryCandidateSince;
      if HasDwell(d, log, n, x) && !BreaksDwell(d, log, n, x)
      then since == Run(d, log, n).batteryCandidateSince
      else Wants(d, log, n, x) && since == Some(log[n].at)
    ensures HasDwell(d, log, n, x) ==> Run(d, log, n).batteryCandidate == Some(x)
  {
    hide Wants, Emits, HasDwell;
    DwellStep(d, log, n, x);
    DwellExtends(d, log, n, x);
    assert DwellAgrees(d, log, n, x);
    if log[n].ObserveBattery? {
      WantsInFields(d, log, n, x);
      EmitsIsAction(d, log, n);
    } else {
      OtherCallsDropTimer(d, log, n, x);
    }
  }

  lemma DwellSinceStep(d: u64, log: seq<Call>, n: nat, x: Preset)
    requires n < |log| && ThresholdRefines(d, log, n)
    ensures DwellSinceAgrees(d, log, n + 1, x)
  {
    hide Wants, Emits, BreaksDwell, DwellStart;
    var g, m := Run(d, log, n + 1), n + 1;
    StartsHaveDwell(d, log, m, x);
    forall i: nat | g.batteryCandidate == Some(x) && DwellStart(d, log, i, m, x)
      ensures g.batteryCandidateSince == Some(log[i].at)
    {
      TimerKeepsStart(d, log, n, x);
      if i < n {
        StartSurvives(d, log, i, n, x);
        assert DwellSinceAgrees(d, log, n, x);
      } else {
        StartIsNew(d, log, n, x);
      }
    }
  }

  /** Main result: after any calls in any order, the rule, the applied and the pending
      preset and the battery timer are those that the log prescribes. */
  lemma {:induction false} ThresholdRefinesLog(d: u64, log: seq<Call>, n: nat)
    requires n <= |log|
    ensures ThresholdRefines(d, log, n)
  {
    if n == 0 {
      assert forall x, i: nat :: !DwellFrom(d, log, i, 0, x);
    } else {
      ThresholdRefinesLog(d, log, n - 1);
      PresetsStep(d, log, n - 1);
      forall x ensures DwellAgrees(d, log, n, x) && DwellSinceAgrees(d, log, n, x) {
        DwellStep(d, log, n - 1, x);
        DwellSinceStep(d, log, n - 1, x);
      }
    }
  }

  /** Main result: a battery reading asks for the battery preset exactly when it ends
      an unbroken dwell on it of at least the debounce time, likewise for the recovery
      preset, and otherwise emits nothing. */
  lemma ThresholdActionsFollowLog(d: u64, log: seq<Call>, j: nat)
    requires j < |log| && log[j].ObserveBattery?
    ensures ActionsAt(d, log, j) ==
      if DwellCompletes(d, log, j, BatteryPreset) then [ApplyFor(OnBattery)]
      else if DwellCompletes(d, log, j, RecoveryPreset) then [ApplyRecovery]
      else []
  {
    hide DwellCompletes;
    ThresholdRefinesLog(d, log, j);
    DebouncerRefinesLog(d, log, j);
    EmissionMeansDwell(d, log, j, BatteryPreset);
    EmissionMeansDwell(d, log, j, RecoveryPreset);
  }

  /** Main result: a reading that emits is a percentage.  At or below the lower limit it
      asks for battery power's preset; otherwise it is at or above the upper limit,
      recovery is available, and it asks for recovery. */
  lemma EmissionsByReading(d: u64, log: seq<Call>, j: nat)
    requires j < |log| && log[j].ObserveBattery? && ActionsAt(d, log, j) != []
    ensures log[j].percent.Some? && log[j].percent.value.Finite?
    ensures var v, rule := log[j].percent.value.value, log[j].under;
      && 0.0 <= v <= 100.0
      && if v <= rule.lower as real then ActionsAt(d, log, j) == [ApplyFor(OnBattery)]
         else rule.upper.Some? && v >= rule.upper.value as real && log[j].recoveryAvailable
              && ActionsAt(d, log, j) == [ApplyRecovery]
  {
    hide Held, IsStable, ActiveAt, RuleChanged, DwellStart;
    ThresholdActionsFollowLog(d, log, j);
  }

  /** Main result: a request repeats what the preset in the log asks for that was
      confirmed last and not forgotten since, while automation is active. */
  lemma RequestedActionsFollowLog(d: u64, log: seq<Call>, j: nat)
    requires j < |log| && log[j].RequestCurrentRule?
    ensures ActionsAt(d, log, j) ==
      if !ActiveAt(log, j) then []
      else
        match AppliedAt(log, j)
        case None => []
        case Some(AcPreset) => [ApplyFor(OnAc)]
        case Some(BatteryPreset) => [ApplyFor(OnBattery)]
        case Some(RecoveryPreset) => [ApplyRecovery]
  {
    ThresholdRefinesLog(d, log, j);
    DebouncerRefinesLog(d, log, j);
  }

  // ---------------------------------------------------------------- what is only recorded

  /** The source that was observed last. */
  ghost function SeenAt(log: seq<Call>, n: nat): Option<PowerSource>
    requires n <= |log|
  {
    if n == 0 then None
    else if log[n - 1].ObserveSource? && log[n - 1].source.Some? then log[n - 1].source
    else SeenAt(log, n - 1)
  }

  /** The time of the last call that settled a source or asked for something. */
  ghost function ActedAt(d: u64, log: seq<Call>, n: nat): Option<u64>
    requires n <= |log|
  {
    if n == 0 then None
    else
      match log[n - 1]
      case ObserveSource(at, _, _) => if Settles(d, log, n - 1) then Some(at) else ActedAt(d, log, n - 1)
      case ObserveBattery(at, _, _, _) => if Emits(d, log, n - 1) then Some(at) else ActedAt(d, log, n - 1)
      case RequestCurrentRule(at) =>
        if ActiveAt(log, n - 1) && AppliedAt(log, n - 1).Some? then Some(at) else ActedAt(d, log, n - 1)
      case _ => ActedAt(d, log, n - 1)
  }

  lemma StepRecords(f: PolicyFields, c: Call)
    ensures var (g, actions) := Step(f, c);
      && g.lastSource == (if c.ObserveSource? && c.source.Some? then c.source else f.lastSource)
      && g.lastApplyAt ==
           match c
           case ObserveSource(at, source, _) =>
             if source.Some? && f.enabled && !f.paused && f.stable != source && f.candidate == source
                && Lasts(f.debounce, f.candidateSince.GetOr(at), at) then Some(at) else f.lastApplyAt
           case ObserveBattery(at, _, _, _) => if actions != [] then Some(at) else f.lastApplyAt
           case RequestCurrentRule(at) =>
             if f.enabled && !f.paused && f.active.Some? then Some(at) else f.lastApplyAt
           case _ => f.lastApplyAt
  {
  }

  /** The remaining fields: the source observed last and the time of the last act. */
  lemma {:induction false} RecordsFollowLog(d: u64, log: seq<Call>, n: nat)
    requires n <= |log|
    ensures Run(d, log, n).lastSource == SeenAt(log, n) && Run(d, log, n).lastApplyAt == ActedAt(d, log, n)
  {
    if n > 0 {
      hide Step, Emits, Stabilises, PendingAt;
      hide StableAgrees, CandidateAgrees, SinceAgrees, DwellAgrees, DwellSinceAgrees;
      var p := n - 1;
      RecordsFollowLog(d, log, p);
      ThresholdRefinesLog(d, log, p);
      DebouncerRefinesLog(d, log, p);
      StepRecords(Run(d, log, p), log[p]);
      if log[p].ObserveBattery? {
        EmitsIsAction(d, log, p);
      }
      if log[p].ObserveSource? && log[p].source.Some? {
        SettlesInFields(d, log, p);
      }
    }
  }
}
