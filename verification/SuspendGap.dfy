/** The suspend-gap detector: comparing a clock that counts suspended time with
    one that does not. */
module SuspendGap {
  import opened Common

  const TOLERANCE_MS := 50

  datatype Clocks = Clocks(boot: u64, mono: u64)

  datatype Observation = Baseline | Steady | Resumed(gap: u64) | Anomaly

  function Step(previous: Option<Clocks>, now: Clocks): (Option<Clocks>, Observation) {
    if previous.None? then (Some(now), Baseline)
    else
      var p := previous.value;
      if now.boot < p.boot || now.mono < p.mono then (None, Anomaly)
      else
        var drift := (now.boot - p.boot) - (now.mono - p.mono);
        (Some(now),
         if drift < -TOLERANCE_MS then Anomaly
         else if drift > TOLERANCE_MS then Resumed(drift)
         else Steady)
  }

  class SuspendGapDetector {
    var previous: Option<Clocks>

    constructor ()
      ensures previous == None
    {
      previous := None;
    }

    method Reset()
      modifies this
      ensures previous == None
    {
      previous := None;
    }

    method Observe(bootMs: u64, monoMs: u64) returns (r: Observation)
      modifies this
      ensures (previous, r) == Step(old(previous), Clocks(bootMs, monoMs))
    {
      if previous.None? {
        previous := Some(Clocks(bootMs, monoMs));
        return Baseline;
      }
      var p := previous.value;
      if bootMs < p.boot || monoMs < p.mono {
        previous := None;
        return Anomaly;
      }
      var bootDelta, monoDelta := bootMs - p.boot, monoMs - p.mono;
      previous := Some(Clocks(bootMs, monoMs));
      if bootDelta < monoDelta {
        return if monoDelta - bootDelta > TOLERANCE_MS then Anomaly else Steady;
      }
      var gap: u64 := bootDelta - monoDelta;
      r := if gap > TOLERANCE_MS then Resumed(gap) else Steady;
    }
  }

  /** What the detector answers at each reading, given what it remembers. */
  ghost function Answers(previous: Option<Clocks>, readings: seq<Clocks>): (r: seq<Observation>)
    ensures |r| == |readings|
    decreases |readings|
  {
    if readings == [] then []
    else
      var (next, answer) := Step(previous, readings[0]);
      [answer] + Answers(next, readings[1..])
  }

  ghost function Gaps(answers: seq<Observation>): nat {
    if answers == [] then 0
    else (if answers[0].Resumed? then answers[0].gap else 0) + Gaps(answers[1..])
  }

  ghost function Steadies(answers: seq<Observation>): nat {
    if answers == [] then 0
    else (if answers[0].Steady? then 1 else 0) + Steadies(answers[1..])
  }

  /** How far the two clocks have drifted apart between two readings. */
  ghost function Drift(from: Clocks, to: Clocks): int {
    (to.boot - from.boot) - (to.mono - from.mono)
  }

  /** Main result: over any run after a baseline without an anomaly, the drift of
      the clocks is the sum of the reported gaps, up to 50 ms per steady reading. */
  lemma {:induction false} GapsAccountForDrift(from: Clocks, readings: seq<Clocks>)
    requires readings != [] && Anomaly !in Answers(Some(from), readings)
    ensures var a := Answers(Some(from), readings);
      -50 * Steadies(a) <= Drift(from, readings[|readings| - 1]) - Gaps(a) <= 50 * Steadies(a)
    decreases |readings|
  {
    var a := Answers(Some(from), readings);
    var (next, answer) := Step(Some(from), readings[0]);
    assert a == [answer] + Answers(next, readings[1..]);
    assert answer in a;
    if |readings| > 1 {
      assert forall x | x in a[1..] :: x in a;
      GapsAccountForDrift(readings[0], readings[1..]);
    }
  }

  /** Neither clock ever goes back. */
  ghost predicate NeverBack(from: Clocks, readings: seq<Clocks>)
    decreases |readings|
  {
    readings == []
    || (from.boot <= readings[0].boot && from.mono <= readings[0].mono && NeverBack(readings[0], readings[1..]))
  }

  /** Main result: while neither clock goes back, the reported gaps make up for all of the
      drift except 50 ms per reading. */
  lemma {:induction false} GapsCoverDrift(from: Clocks, readings: seq<Clocks>)
    requires readings != [] && NeverBack(from, readings)
    ensures Drift(from, readings[|readings| - 1]) <= Gaps(Answers(Some(from), readings)) + 50 * |readings|
    decreases |readings|
  {
    var a := Answers(Some(from), readings);
    var (next, answer) := Step(Some(from), readings[0]);
    assert a == [answer] + Answers(next, readings[1..]);
    if |readings| > 1 {
      GapsCoverDrift(readings[0], readings[1..]);
    }
  }

  /** Main result: a drift above 50 ms per reading is reported as a resume, or one of the
      clocks went back in between. */
  lemma LargeGapIsReported(from: Clocks, readings: seq<Clocks>)
    requires readings != []
    requires Drift(from, readings[|readings| - 1]) > 50 * |readings|
    ensures NeverBack(from, readings) ==> exists x :: x in Answers(Some(from), readings) && x.Resumed?
  {
    var a := Answers(Some(from), readings);
    if NeverBack(from, readings) && forall x | x in a :: !x.Resumed? {
      GapsCoverDrift(from, readings);
      NoGaps(a);
    }
  }

  lemma {:induction false} NoGaps(a: seq<Observation>)
    requires forall x | x in a :: !x.Resumed?
    ensures Gaps(a) == 0 && Steadies(a) <= |a|
  {
    if a != [] {
      NoGaps(a[1..]);
    }
  }

  // ---------------------------------------------------------------- every answer

  /** A clock went back at reading `k`. */
  ghost predicate SetBack(readings: seq<Clocks>, k: nat)
    requires k < |readings|
  {
    k > 0 && (readings[k].boot < readings[k - 1].boot || readings[k].mono < readings[k - 1].mono)
  }

  /** Reading `k` has nothing to be compared with: it is the first, or the one before was
      compared and found to go back. */
  ghost predicate StartsOver(readings: seq<Clocks>, k: nat)
    requires k <= |readings|
  {
    k == 0 || (!StartsOver(readings, k - 1) && SetBack(readings, k - 1))
  }

  /** The clocks that the detector remembers before reading `k`. */
  ghost function Remembered(readings: seq<Clocks>, k: nat): Option<Clocks>
    requires k <= |readings|
  {
    if k == 0 then None else Step(Remembered(readings, k - 1), readings[k - 1]).0
  }

  lemma {:induction false} RemembersPrevious(readings: seq<Clocks>, k: nat)
    requires k <= |readings|
    ensures Remembered(readings, k) == if StartsOver(readings, k) then None else Some(readings[k - 1])
  {
    if k > 0 { RemembersPrevious(readings, k - 1); }
  }

  /** Main result: every answer in terms of the readings alone.  The gap is reported
      exactly when it is above 50 ms, and then in full; an anomaly is a clock that went
      back, or one that counts suspended time falling more than 50 ms behind. */
  lemma AnswersFollowClocks(readings: seq<Clocks>, k: nat)
    requires k < |readings|
    ensures var answer := Step(Remembered(readings, k), readings[k]).1;
      if StartsOver(readings, k) then answer == Baseline
      else
        var drift := Drift(readings[k - 1], readings[k]);
        && (answer == Anomaly <==> SetBack(readings, k) || drift < -50)
        && (answer.Resumed? <==> !SetBack(readings, k) && drift > 50)
        && (answer.Resumed? ==> answer.gap == drift)
        && (answer == Steady <==> !SetBack(readings, k) && -50 <= drift <= 50)
  {
    RemembersPrevious(readings, k);
  }
}
