/** The policy engine refines a declarative reading of its call log.

    Everything here speaks of a log and a prefix length `n`: `Run(d, log, n)` is
    the state after the first `n` calls.  The predicates that do not mention
    `Run` are the specification; they look only at which calls were made. */
module PolicyLog {
  import opened Common
  import opened Policy

  ghost function Run(d: u64, log: seq<Call>, n: nat): PolicyFields
    requires n <= |log|
  {
    if n == 0 then Fresh(d) else Step(Run(d, log, n - 1), log[n - 1]).0
  }

  ghost function ActionsAt(d: u64, log: seq<Call>, k: nat): seq<Action>
    requires k < |log|
  {
    Step(Run(d, log, k), log[k]).1
  }

  // ---------------------------------------------------------------- reading the log

  ghost predicate EnabledAt(log: seq<Call>, n: nat)
    requires n <= |log|
  {
    n > 0 && if log[n - 1].SetEnabled? then log[n - 1].on else EnabledAt(log, n - 1)
  }

  ghost predicate PausedAt(log: seq<Call>, n: nat)
    requires n <= |log|
  {
    n > 0 &&
    match log[n - 1]
    case SetManualOverride(pause) => pause
    case Resume => false
    case _ => PausedAt(log, n - 1)
  }

  ghost predicate ActiveAt(log: seq<Call>, n: nat)
    requires n <= |log|
  {
    EnabledAt(log, n) && !PausedAt(log, n)
  }

  /** Calls that restart the dwell timers; switching to the current setting does not. */
  ghost predicate EffectiveReset(log: seq<Call>, k: nat)
    requires k < |log|
  {
    match log[k]
    case SetEnabled(on) => on != EnabledAt(log, k)
    case SetManualOverride(pause) => pause != PausedAt(log, k)
    case Resume => true
    case Reconfigure => true
    case _ => false
  }

  /** Calls after which no source is settled; pausing alone keeps the settled source. */
  ghost predicate ClearsStable(log: seq<Call>, k: nat)
    requires k < |log|
  {
    (EffectiveReset(log, k) && log[k] != SetManualOverride(true))
    || (log[k].ObserveSource? && log[k].source.None?)
  }

  ghost predicate Sees(log: seq<Call>, k: nat, s: PowerSource)
    requires k < |log|
  {
    log[k].ObserveSource? && log[k].source == Some(s)
  }

  ghost predicate BreaksRun(log: seq<Call>, k: nat, s: PowerSource)
    requires k < |log|
  {
    EffectiveReset(log, k) || (log[k].ObserveSource? && log[k].source != Some(s))
  }

  /** An unbroken run of observations of `s` reaches from call `i` up to call `n`. */
  ghost predicate RunFrom(log: seq<Call>, i: nat, n: nat, s: PowerSource)
    requires n <= |log|
  {
    i < n && Sees(log, i, s) && forall k | i < k < n :: !BreaksRun(log, k, s)
  }

  /** ... and `i` is where that run began. */
  ghost predicate RunStart(log: seq<Call>, i: nat, n: nat, s: PowerSource)
    requires n <= |log|
  {
    RunFrom(log, i, n, s) && forall h: nat | h < i :: !RunFrom(log, h, n, s)
  }

  /** The debounce time `d` lies between the two times. */
  ghost predicate Lasts(d: u64, from: u64, to: u64) {
    d == 0 || from + d <= to
  }

  /** At call `j` the source `s` has been seen without interruption for the debounce time. */
  ghost predicate Dwelt(d: u64, log: seq<Call>, j: nat, s: PowerSource)
    requires j < |log|
  {
    ActiveAt(log, j) && Sees(log, j, s)
    && exists i: nat :: RunStart(log, i, j, s) && Lasts(d, log[i].at, log[j].at)
  }

  ghost predicate Unsettles(d: u64, log: seq<Call>, k: nat, s: PowerSource)
    requires k < |log|
  {
    ClearsStable(log, k) || Dwelt(d, log, k, OtherSource(s))
  }

  /** `s` is the settled source after `n` calls: it dwelt at some call and nothing
      since has unsettled it. */
  ghost predicate IsStable(d: u64, log: seq<Call>, n: nat, s: PowerSource)
    requires n <= |log|
  {
    exists j: nat :: j < n && Dwelt(d, log, j, s) && forall k | j < k < n :: !Unsettles(d, log, k, s)
  }

  /** Call `j` is the one at which `s` becomes the settled source. */
  ghost predicate Stabilises(d: u64, log: seq<Call>, j: nat, s: PowerSource)
    requires j < |log|
  {
    Dwelt(d, log, j, s) && !IsStable(d, log, j, s)
  }

  // ---------------------------------------------------------------- refinement

  ghost predicate HasRun(log: seq<Call>, n: nat, s: PowerSource)
    requires n <= |log|
  {
    exists i: nat :: RunFrom(log, i, n, s)
  }

  ghost predicate FlagsAgree(d: u64, log: seq<Call>, n: nat)
    requires n <= |log|
  {
    var f := Run(d, log, n);
    f.debounce == d && f.enabled == EnabledAt(log, n) && f.paused == PausedAt(log, n)
  }

  ghost predicate StableAgrees(d: u64, log: seq<Call>, n: nat, s: PowerSource)
    requires n <= |log|
  {
    Run(d, log, n).stable == Some(s) <==> IsStable(d, log, n, s)
  }

  ghost predicate CandidateAgrees(d: u64, log: seq<Call>, n: nat, s: PowerSource)
    requires n <= |log|
  {
    var f := Run(d, log, n);
    f.candidate == Some(s) <==> (ActiveAt(log, n) && f.stable != Some(s) && HasRun(log, n, s))
  }

  ghost predicate SinceAgrees(d: u64, log: seq<Call>, n: nat, s: PowerSource)
    requires n <= |log|
  {
    var f := Run(d, log, n);
    f.candidate == Some(s) ==>
      forall i: nat | RunStart(log, i, n, s) :: f.candidateSince == Some(log[i].at)
  }

  /** The debouncer's fields say exactly what the log says. */
  ghost predicate Refines(d: u64, log: seq<Call>, n: nat)
    requires n <= |log|
  {
    FlagsAgree(d, log, n)
    && forall s :: StableAgrees(d, log, n, s) && CandidateAgrees(d, log, n, s) && SinceAgrees(d, log, n, s)
  }

  /** A run that exists has a beginning. */
  lemma {:induction false} StartExists(log: seq<Call>, i: nat, n: nat, s: PowerSource) returns (b: nat)
    requires n <= |log| && RunFrom(log, i, n, s)
    ensures RunStart(log, b, n, s)
    decreases i
  {
    if h: nat :| h < i && RunFrom(log, h, n, s) {
      b := StartExists(log, h, n, s);
    } else {
      b := i;
    }
  }

  lemma RunExtends(log: seq<Call>, n: nat, s: PowerSource)
    requires n < |log|
    ensures HasRun(log, n + 1, s) <==> Sees(log, n, s) || (HasRun(log, n, s) && !BreaksRun(log, n, s))
  {
    if i: nat :| RunFrom(log, i, n, s) && !BreaksRun(log, n, s) {
      assert RunFrom(log, i, n + 1, s);
    }
    if Sees(log, n, s) {
      assert RunFrom(log, n, n + 1, s);
    }
    var m := n + 1;
    if i: nat :| i < n && RunFrom(log, i, m, s) {
      assert RunFrom(log, i, n, s);
    }
  }

  /** What the fields before call `n` say about a dwell at call `n`. */
  ghost predicate Elapsed(d: u64, log: seq<Call>, n: nat, s: PowerSource)
    requires n < |log| && log[n].ObserveSource?
  {
    var f := Run(d, log, n);
    ActiveAt(log, n) && f.candidate == Some(s) && Lasts(d, f.candidateSince.GetOr(log[n].at), log[n].at)
  }

  lemma DweltIsElapsed(d: u64, log: seq<Call>, n: nat, s: PowerSource)
    requires n < |log| && Refines(d, log, n) && Sees(log, n, s)
    requires Run(d, log, n).stable != Some(s)
    ensures Dwelt(d, log, n, s) <==> Elapsed(d, log, n, s)
  {
    var f := Run(d, log, n);
    assert CandidateAgrees(d, log, n, s) && SinceAgrees(d, log, n, s);
    if f.candidate == Some(s) {
      var i: nat :| RunFrom(log, i, n, s);
      var b := StartExists(log, i, n, s);
      assert f.candidateSince == Some(log[b].at);
      if Elapsed(d, log, n, s) {
        assert RunStart(log, b, n, s) && Lasts(d, log[b].at, log[n].at);
      }
    }
  }

  lemma StableExtends(d: u64, log: seq<Call>, n: nat, s: PowerSource)
    requires n < |log|
    ensures IsStable(d, log, n + 1, s) <==>
      Dwelt(d, log, n, s) || (IsStable(d, log, n, s) && !Unsettles(d, log, n, s))
  {
    hide Dwelt, Unsettles;
    if IsStable(d, log, n, s) && !Unsettles(d, log, n, s) {
      var j: nat :| j < n && Dwelt(d, log, j, s) && forall k | j < k < n :: !Unsettles(d, log, k, s);
    }
  }

  lemma StepFlags(f: PolicyFields, c: Call)
    ensures var g := Step(f, c).0;
      && g.debounce == f.debounce
      && g.enabled == (if c.SetEnabled? then c.on else f.enabled)
      && g.paused == (if c.SetManualOverride? then c.pause else if c.Resume? then false else f.paused)
  {
  }

  lemma FlagsStep(d: u64, log: seq<Call>, n: nat)
    requires n < |log| && FlagsAgree(d, log, n)
    ensures FlagsAgree(d, log, n + 1)
  {
    StepFlags(Run(d, log, n), log[n]);
  }

  /** How one call moves the settled source. */
  lemma StepStable(f: PolicyFields, c: Call)
    ensures var g := Step(f, c).0;
      g.stable ==
        match c
        case SetEnabled(on) => if on != f.enabled then None else f.stable
        case SetManualOverride(pause) => if !pause && f.paused then None else f.stable
        case Resume => None
        case Reconfigure => None
        case ObserveSource(at, src, _) =>
          if src.None? || (f.enabled && !f.paused && f.candidate == src
                           && SatSub(at, f.candidateSince.GetOr(at)) >= f.debounce)
          then src else f.stable
        case _ => f.stable
  {
  }

  lemma CandidateStep(d: u64, log: seq<Call>, n: nat, s: PowerSource)
    requires n < |log| && FlagsAgree(d, log, n)
    requires CandidateAgrees(d, log, n, s) && CandidateAgrees(d, log, n, OtherSource(s))
    ensures CandidateAgrees(d, log, n + 1, s)
  {
    FlagsStep(d, log, n);
    RunExtends(log, n, s);
  }

  /** A run goes on through a call that does not break it. */
  lemma RunsGoOn(log: seq<Call>, n: nat, s: PowerSource)
    requires n < |log|
    ensures forall h: nat :: RunFrom(log, h, n, s) && !BreaksRun(log, n, s) ==> RunFrom(log, h, n + 1, s)
  {
  }

  lemma StartSurvives(log: seq<Call>, i: nat, n: nat, s: PowerSource)
    requires i < n < |log| && RunStart(log, i, n + 1, s)
    ensures RunStart(log, i, n, s)
  {
    RunsGoOn(log, n, s);
    assert RunFrom(log, i, n, s) && !BreaksRun(log, n, s);
  }

  lemma StartIsNew(log: seq<Call>, n: nat, s: PowerSource)
    requires n < |log| && RunStart(log, n, n + 1, s)
    ensures Sees(log, n, s) && (HasRun(log, n, s) ==> BreaksRun(log, n, s))
  {
    RunsGoOn(log, n, s);
  }

  /** A candidate after a call was there before, or this call proposes it. */
  lemma StepCandidate(f: PolicyFields, c: Call)
    ensures var g := Step(f, c).0;
      g.candidate.Some? ==>
        (g.candidate == f.candidate && g.candidateSince == f.candidateSince)
        || (c.ObserveSource? && g.candidate == c.source != f.candidate && g.candidateSince == Some(c.at)
            && f.enabled && !f.paused && f.stable != c.source)
  {
  }

  lemma SinceStep(d: u64, log: seq<Call>, n: nat, s: PowerSource)
    requires n < |log| && FlagsAgree(d, log, n)
    requires CandidateAgrees(d, log, n, s) && SinceAgrees(d, log, n, s)
    ensures SinceAgrees(d, log, n + 1, s)
  {
    hide Step;
    var g := Run(d, log, n + 1);
    StepCandidate(Run(d, log, n), log[n]);
    forall i: nat | g.candidate == Some(s) && RunStart(log, i, n + 1, s)
      ensures g.candidateSince == Some(log[i].at)
    {
      if i < n {
        StartSurvives(log, i, n, s);
        assert RunFrom(log, i, n, s);
      } else {
        StartIsNew(log, n, s);
      }
    }
  }

  /** How one call moves the settled source of the log. */
  lemma SettledExtends(d: u64, log: seq<Call>, n: nat, s: PowerSource)
    requires n < |log|
    ensures IsStable(d, log, n + 1, s) <==>
      if Sees(log, n, s) then Dwelt(d, log, n, s) || IsStable(d, log, n, s)
      else IsStable(d, log, n, s) && !ClearsStable(log, n) && !Dwelt(d, log, n, OtherSource(s))
  {
    StableExtends(d, log, n, s);
  }

  lemma StableStep(d: u64, log: seq<Call>, n: nat, s: PowerSource)
    requires n < |log| && Refines(d, log, n)
    ensures StableAgrees(d, log, n + 1, s)
  {
    var f, c := Run(d, log, n), log[n];
    SettledExtends(d, log, n, s);
    StepStable(f, c);
    assert StableAgrees(d, log, n, s) && StableAgrees(d, log, n, OtherSource(s));
    if c.ObserveSource? {
      StableStepObserve(d, log, n, s);
    } else {
      assert !Dwelt(d, log, n, OtherSource(s));
      assert Run(d, log, n + 1).stable == if ClearsStable(log, n) then None else f.stable;
    }
  }

  lemma StableStepObserve(d: u64, log: seq<Call>, n: nat, s: PowerSource)
    requires n < |log| && Refines(d, log, n) && log[n].ObserveSource?
    requires IsStable(d, log, n + 1, s) <==>
      if Sees(log, n, s) then Dwelt(d, log, n, s) || IsStable(d, log, n, s)
      else IsStable(d, log, n, s) && !ClearsStable(log, n) && !Dwelt(d, log, n, OtherSource(s))
    ensures StableAgrees(d, log, n + 1, s)
  {
    hide RunStart, RunFrom;
    var f, c := Run(d, log, n), log[n];
    assert StableAgrees(d, log, n, s) && StableAgrees(d, log, n, OtherSource(s));
    if c.source.Some? && f.stable != c.source {
      DweltIsElapsed(d, log, n, c.source.value);
    }
  }

  /** Main result: after any calls in any order, the fields of the debouncer are
      those that the declarative reading of the log prescribes. */
  lemma {:induction false} DebouncerRefinesLog(d: u64, log: seq<Call>, n: nat)
    requires n <= |log|
    ensures Refines(d, log, n)
  {
    if n == 0 {
    } else {
      DebouncerRefinesLog(d, log, n - 1);
      FlagsStep(d, log, n - 1);
      forall s
        ensures StableAgrees(d, log, n, s) && CandidateAgrees(d, log, n, s) && SinceAgrees(d, log, n, s)
      {
        assert CandidateAgrees(d, log, n - 1, s) && CandidateAgrees(d, log, n - 1, OtherSource(s));
        StableStep(d, log, n - 1, s);
        CandidateStep(d, log, n - 1, s);
        SinceStep(d, log, n - 1, s);
      }
    }
  }

  /** Main result: a source observation emits exactly when its source becomes settled
      in the log, and then it asks for that source; with a battery threshold configured,
      settling on battery asks for nothing. */
  lemma SourceActionsFollowLog(d: u64, log: seq<Call>, j: nat)
    requires j < |log| && log[j].ObserveSource?
    ensures ActionsAt(d, log, j) ==
      match log[j].source
      case None => []
      case Some(OnAc) => if Stabilises(d, log, j, OnAc) then [ApplyFor(OnAc)] else []
      case Some(OnBattery) =>
        if Stabilises(d, log, j, OnBattery) && !log[j].thresholdEnabled then [ApplyFor(OnBattery)] else []
  {
    DebouncerRefinesLog(d, log, j);
    assert log[j].source.Some? ==> StableAgrees(d, log, j, log[j].source.value);
    if log[j].source.Some? && Run(d, log, j).stable != log[j].source {
      DweltIsElapsed(d, log, j, log[j].source.value);
    }
  }

  /** Whatever is called, nothing is emitted while automation is off or paused. */
  lemma SilentUnlessActive(d: u64, log: seq<Call>, j: nat)
    requires j < |log| && !ActiveAt(log, j)
    ensures ActionsAt(d, log, j) == []
  {
    DebouncerRefinesLog(d, log, j);
  }
}
