/** The fan-curve validator that guards hardware writes, and how it agrees with
    the sanitizer. */
module FanValidate {
  import opened Common
  import opened FanCurve
  import opened FanCurveLaws

  datatype CurveError =
    | NoPoints
    | WrongCount(expected: nat)
    | TempOutside(temp: u8)
    | DutyOutside(duty: u8)
    | NotHotter
    | NotMonotonic
    | BelowFullAt95
    | BelowNinetyAt90
    | BelowSeventyAt85
    | NoTerminal(temp: u8)

  /** What is wrong with a point that follows `before`, the first fault in the
      order in which faults are looked for. */
  function Fault(before: Option<FanPoint>, p: FanPoint, policy: CurvePolicy): Option<CurveError> {
    if p.temp < policy.tempMin || p.temp > policy.tempMax then Some(TempOutside(p.temp))
    else if p.duty < policy.dutyMin || p.duty > policy.dutyMax then Some(DutyOutside(p.duty))
    else if before.Some? && p.temp <= before.value.temp then Some(NotHotter)
    else if policy.monotonic && before.Some? && p.duty < before.value.duty then Some(NotMonotonic)
    else if p.temp >= 95 && p.duty < 100 then Some(BelowFullAt95)
    else if p.temp >= 90 && p.duty < 90 then Some(BelowNinetyAt90)
    else if p.temp >= 85 && p.duty < 70 then Some(BelowSeventyAt85)
    else None
  }

  function FaultAt(ps: seq<FanPoint>, i: nat, policy: CurvePolicy): Option<CurveError>
    requires i < |ps|
  {
    Fault(if i == 0 then None else Some(ps[i - 1]), ps[i], policy)
  }

  /** The duty that validation demands at a temperature. */
  function Demanded(temp: u8): u8 {
    if temp >= 95 then 100 else if temp >= 90 then 90 else if temp >= 85 then 70 else 0
  }

  /** What an acceptable curve is, without reference to how it is checked. */
  ghost predicate Acceptable(ps: seq<FanPoint>, policy: CurvePolicy) {
    && ps != []
    && (policy.exactCount.Some? ==> |ps| == policy.exactCount.value)
    && (forall i :: 0 <= i < |ps| ==>
          && policy.tempMin <= ps[i].temp <= policy.tempMax
          && policy.dutyMin <= ps[i].duty <= policy.dutyMax
          && Demanded(ps[i].temp) <= ps[i].duty)
    && StrictlyHotter(ps)
    && (policy.monotonic ==> NeverFalls(ps))
    && (policy.requireTerminal ==> exists i :: 0 <= i < |ps| && ps[i].temp >= policy.terminalTemp)
  }

  /** Accepts exactly the acceptable curves; otherwise reports the first fault of
      the first faulty point, after the checks on the whole list and before the
      check for a terminal point. */
  method ValidateFanCurvePoints(points: seq<FanPoint>, policy: CurvePolicy) returns (r: Result<(), CurveError>)
    ensures r.Ok? <==> Acceptable(points, policy)
    ensures r == Err(NoPoints) <==> points == []
    ensures r.Err? && r.error.WrongCount? <==>
      points != [] && policy.exactCount.Some? && |points| != policy.exactCount.value
    ensures r.Err? && !r.error.NoPoints? && !r.error.WrongCount? && !r.error.NoTerminal? ==>
      exists i: nat :: i < |points| && FaultAt(points, i, policy) == Some(r.error)
        && forall j: nat :: j < i ==> FaultAt(points, j, policy).None?
    ensures r.Err? && r.error.NoTerminal? ==> forall i: nat :: i < |points| ==> FaultAt(points, i, policy).None?
  {
    if points == [] {
      return Err(NoPoints);
    }
    if policy.exactCount.Some? && |points| != policy.exactCount.value {
      return Err(WrongCount(policy.exactCount.value));
    }
    var lastTemp: Option<u8> := None;
    var lastDuty: Option<u8> := None;
    var k := 0;
    while k < |points|
      invariant 0 <= k <= |points|
      invariant lastTemp == if k == 0 then None else Some(points[k - 1].temp)
      invariant lastDuty == if k == 0 then None else Some(points[k - 1].duty)
      invariant forall j: nat :: j < k ==> FaultAt(points, j, policy).None?
    {
      var point := points[k];
      var fault: Option<CurveError> := None;
      if point.temp < policy.tempMin || point.temp > policy.tempMax {
        fault := Some(TempOutside(point.temp));
      } else if point.duty < policy.dutyMin || point.duty > policy.dutyMax {
        fault := Some(DutyOutside(point.duty));
      } else if lastTemp.Some? && point.temp <= lastTemp.value {
        fault := Some(NotHotter);
      } else if policy.monotonic && lastDuty.Some? && point.duty < lastDuty.value {
        fault := Some(NotMonotonic);
      } else if point.temp >= 95 && point.duty < 100 {
        fault := Some(BelowFullAt95);
      } else if point.temp >= 90 && point.duty < 90 {
        fault := Some(BelowNinetyAt90);
      } else if point.temp >= 85 && point.duty < 70 {
        fault := Some(BelowSeventyAt85);
      }
      assert fault == FaultAt(points, k, policy);
      if fault.Some? {
        FaultyIsUnacceptable(points, policy, k);
        return Err(fault.value);
      }
      lastTemp, lastDuty := Some(point.temp), Some(point.duty);
      k := k + 1;
    }
    FaultlessIsOrdered(points, policy, |points|);
    if policy.requireTerminal && (lastTemp.None? || lastTemp.value < policy.terminalTemp) {
      return Err(NoTerminal(policy.terminalTemp));
    }
    assert policy.requireTerminal ==> points[|points| - 1].temp >= policy.terminalTemp;
    r := Ok(());
  }

  lemma FaultyIsUnacceptable(ps: seq<FanPoint>, policy: CurvePolicy, k: nat)
    requires k < |ps| && FaultAt(ps, k, policy).Some?
    ensures !Acceptable(ps, policy)
  {
  }

  lemma {:induction false} FaultlessIsOrdered(ps: seq<FanPoint>, policy: CurvePolicy, n: nat)
    requires n <= |ps| && forall j: nat :: j < n ==> FaultAt(ps, j, policy).None?
    ensures StrictlyHotter(ps[..n])
    ensures policy.monotonic ==> NeverFalls(ps[..n])
    ensures forall i | 0 <= i < n ::
      && policy.tempMin <= ps[i].temp <= policy.tempMax
      && policy.dutyMin <= ps[i].duty <= policy.dutyMax
      && Demanded(ps[i].temp) <= ps[i].duty
  {
    if n > 0 {
      FaultlessIsOrdered(ps, policy, n - 1);
      assert FaultAt(ps, n - 1, policy).None?;
      assert forall i :: 0 <= i < n - 1 ==> ps[..n - 1][i] == ps[i];
      assert n > 1 ==> ps[n - 2].temp < ps[n - 1].temp;
    }
  }

  /** What may be written to hardware: eight points from 30C to 100C, each hotter and
      none slower than the one before, at least 70% from 85C, 90% from 90C and 100% from
      95C, and one at 95C or above. */
  ghost predicate SafeToWrite(ps: seq<FanPoint>) {
    && |ps| == 8
    && (forall i :: 0 <= i < 8 ==>
          && 30 <= ps[i].temp <= 100 && ps[i].duty <= 100
          && (ps[i].temp >= 85 ==> ps[i].duty >= 70)
          && (ps[i].temp >= 90 ==> ps[i].duty >= 90)
          && (ps[i].temp >= 95 ==> ps[i].duty >= 100))
    && (forall i :: 0 < i < 8 ==> ps[i - 1].temp < ps[i].temp && ps[i - 1].duty <= ps[i].duty)
    && ps[7].temp >= 95
  }

  /** Main result: these are exactly the curves that the policy for writes accepts. */
  lemma VerifiedMeans(ps: seq<FanPoint>)
    ensures Acceptable(ps, VERIFIED_ASUS_WRITE) <==> SafeToWrite(ps)
  {
    if SafeToWrite(ps) {
      HotterThroughout(ps, 8);
    }
    if Acceptable(ps, VERIFIED_ASUS_WRITE) {
      var i :| 0 <= i < |ps| && ps[i].temp >= 95;
      assert ps[i].temp <= ps[7].temp;
    }
  }

  /** The limits that the record of a verified device sets beyond that. */
  datatype Envelope = Envelope(dutyMin: u8, tempMin: u8, tempMax: u8, terminalTemp: u8)

  function RecordPolicy(e: Envelope): CurvePolicy {
    VERIFIED_ASUS_WRITE.(dutyMin := e.dutyMin, tempMin := e.tempMin, tempMax := e.tempMax,
                         terminalTemp := e.terminalTemp)
  }

  ghost predicate WithinEnvelope(ps: seq<FanPoint>, e: Envelope) {
    && (forall i :: 0 <= i < |ps| ==> e.tempMin <= ps[i].temp <= e.tempMax && e.dutyMin <= ps[i].duty)
    && (exists i :: 0 <= i < |ps| && e.terminalTemp <= ps[i].temp)
  }

  /** A curve that is safe to write is accepted for a device exactly when it keeps to the
      limits of its record. */
  lemma EnvelopeMeans(ps: seq<FanPoint>, e: Envelope)
    requires SafeToWrite(ps)
    ensures Acceptable(ps, RecordPolicy(e)) <==> WithinEnvelope(ps, e)
  {
    VerifiedMeans(ps);
  }

  lemma {:induction false} HotterThroughout(ps: seq<FanPoint>, n: nat)
    requires n <= |ps| && forall i :: 0 < i < |ps| ==> ps[i - 1].temp < ps[i].temp && ps[i - 1].duty <= ps[i].duty
    ensures forall i, j :: 0 <= i < j < n ==> ps[i].temp < ps[j].temp && ps[i].duty <= ps[j].duty
  {
    if n > 1 {
      HotterThroughout(ps, n - 1);
      assert ps[n - 2].temp < ps[n - 1].temp && ps[n - 2].duty <= ps[n - 1].duty;
    }
  }

  // ---------------------------------------------------------------- agreement with the sanitizer

  /** The floor of the policy is one that validation demands anyway. */
  predicate FloorDemanded(policy: CurvePolicy) {
    policy.floor.Some? ==> Demanded(policy.floor.value.temp) >= policy.floor.value.duty
  }

  lemma StandardPoliciesFit()
    ensures FloorDemanded(DEFAULT_POLICY) && Clampable(DEFAULT_POLICY) && FloorFits(DEFAULT_POLICY)
    ensures FloorDemanded(VERIFIED_ASUS_WRITE) && Clampable(VERIFIED_ASUS_WRITE) && FloorFits(VERIFIED_ASUS_WRITE)
  {
  }

  /** Main result: what validation accepts, sanitizing leaves alone without warning. */
  lemma AcceptedIsUnchanged(ps: seq<FanPoint>, policy: CurvePolicy)
    requires FloorDemanded(policy) && Acceptable(ps, policy)
    ensures Sanitized(ps, policy) == ps && Warnings(ps, policy) == []
  {
    CleanMeansNoWarnings(ps, policy);
  }

  /** The two rules that the default floor does not already enforce. */
  ghost predicate RunsHotEnough(ps: seq<FanPoint>) {
    forall i :: 0 <= i < |ps| ==>
      (ps[i].temp >= 90 ==> ps[i].duty >= 90) && (ps[i].temp >= 95 ==> ps[i].duty >= 100)
  }

  /** Main result: under the default policy a sanitized curve is accepted exactly
      when it also runs at 90% from 90C and at 100% from 95C. */
  lemma SanitizedAccepted(ps: seq<FanPoint>)
    requires ps != []
    ensures var out := Sanitized(ps, DEFAULT_POLICY);
      Acceptable(out, DEFAULT_POLICY) <==> RunsHotEnough(out)
  {
    var out := Sanitized(ps, DEFAULT_POLICY);
    SanitizedIsClosedForm(ps, DEFAULT_POLICY);
    SanitizedNonEmpty(ps, DEFAULT_POLICY);
    OutputIsMonotonic(ps, DEFAULT_POLICY);
    forall i | 0 <= i < |out| ensures WithinDefaults(out[i]) {
      OutputIsSettled(ps, DEFAULT_POLICY, i);
    }
    AcceptedWhenHotEnough(out);
  }

  predicate WithinDefaults(p: FanPoint) {
    30 <= p.temp <= 100 && p.duty <= 100 && (p.temp >= 85 ==> p.duty >= 70)
  }

  lemma SanitizedNonEmpty(ps: seq<FanPoint>, policy: CurvePolicy)
    requires ps != []
    ensures Sanitized(ps, policy) != []
  {
    SanitizedIsClosedForm(ps, policy);
    ClampIsPointwise(ps, policy);
    TempsAreTemps(ClampAll(ps, policy));
    assert ClampAll(ps, policy)[0].temp in Temps(Sanitized(ps, policy));
  }

  lemma AcceptedWhenHotEnough(out: seq<FanPoint>)
    requires out != [] && StrictlyHotter(out) && NeverFalls(out)
    requires forall i :: 0 <= i < |out| ==> WithinDefaults(out[i])
    ensures Acceptable(out, DEFAULT_POLICY) <==> RunsHotEnough(out)
  {
  }
}
