/** What the warnings of the sanitizer say: each pass reports exactly the points that
    it changes, with what they were and what they became. */
module FanCurveWarnings {
  import opened Common
  import opened FanCurve
  import opened FanCurveLaws

  ghost predicate ClampReported(ps: seq<FanPoint>, policy: CurvePolicy, i: nat, w: Warning) {
    && i < |ps| && w.Clamped? && w.from == ps[i] && w.to != ps[i]
    && w.to.temp == Clamp(ps[i].temp, policy.tempMin, policy.tempMax)
    && w.to.duty == Clamp(ps[i].duty, policy.dutyMin, policy.dutyMax)
  }

  lemma ClampReportedAtEnd(ps: seq<FanPoint>, policy: CurvePolicy, w: Warning)
    requires ps != []
    ensures ClampReported(ps, policy, |ps| - 1, w) <==>
      ClampPoint(Last(ps), policy) != Last(ps) && w == Clamped(Last(ps), ClampPoint(Last(ps), policy))
  {
  }

  ghost predicate ClampSaid(ps: seq<FanPoint>, policy: CurvePolicy, w: Warning) {
    exists i: nat :: ClampReported(ps, policy, i, w)
  }

  lemma ClampSaidStep(ps: seq<FanPoint>, policy: CurvePolicy, w: Warning)
    requires ps != []
    ensures ClampSaid(ps, policy, w) <==> ClampSaid(Front(ps), policy, w) || ClampReported(ps, policy, |ps| - 1, w)
  {
    var front := Front(ps);
    assert forall k :: 0 <= k < |front| ==> ps[k] == front[k];
    if i: nat :| ClampReported(front, policy, i, w) { assert ClampReported(ps, policy, i, w); }
    if i: nat :| ClampReported(ps, policy, i, w) && i < |front| { assert ClampReported(front, policy, i, w); }
  }

  /** Clamping reports exactly the points out of bounds, each with its new value. */
  lemma {:induction false} ClampWarningsSay(ps: seq<FanPoint>, policy: CurvePolicy)
    ensures forall w :: w in ClampWarnings(ps, policy) <==> ClampSaid(ps, policy, w)
  {
    if ps != [] {
      hide ClampSaid;
      var front := Front(ps);
      ClampWarningsSay(front, policy);
      forall w ensures w in ClampWarnings(ps, policy) <==> ClampSaid(ps, policy, w) {
        ClampSaidStep(ps, policy, w);
        ClampReportedAtEnd(ps, policy, w);
      }
    } else {
      assert forall i: nat, w :: !ClampReported([], policy, i, w);
    }
  }

  ghost predicate FloorReported(ps: seq<FanPoint>, policy: CurvePolicy, i: nat, w: Warning) {
    && i < |ps| && policy.floor.Some?
    && policy.floor.value.temp <= ps[i].temp && ps[i].duty < policy.floor.value.duty
    && w == Floored(ps[i].temp, ps[i].duty, policy.floor.value.duty)
  }

  ghost predicate FloorSaid(ps: seq<FanPoint>, policy: CurvePolicy, w: Warning) {
    exists i: nat :: FloorReported(ps, policy, i, w)
  }

  lemma FloorSaidStep(ps: seq<FanPoint>, policy: CurvePolicy, w: Warning)
    requires ps != []
    ensures FloorSaid(ps, policy, w) <==> FloorSaid(Front(ps), policy, w) || FloorReported(ps, policy, |ps| - 1, w)
  {
    var front := Front(ps);
    assert forall k :: 0 <= k < |front| ==> ps[k] == front[k];
    if i: nat :| FloorReported(front, policy, i, w) { assert FloorReported(ps, policy, i, w); }
    if i: nat :| FloorReported(ps, policy, i, w) && i < |front| { assert FloorReported(front, policy, i, w); }
  }

  /** The floor reports exactly the points at and above its temperature that are slower. */
  lemma {:induction false} FloorWarningsSay(ps: seq<FanPoint>, policy: CurvePolicy)
    ensures forall w :: w in FloorWarnings(ps, policy) <==> FloorSaid(ps, policy, w)
  {
    if ps != [] {
      hide FloorSaid;
      var front := Front(ps);
      FloorWarningsSay(front, policy);
      forall w ensures w in FloorWarnings(ps, policy) <==> FloorSaid(ps, policy, w) {
        FloorSaidStep(ps, policy, w);
        var p := Last(ps);
        assert FloorReported(ps, policy, |front|, w) <==>
          BelowFloor(p, policy) && w == Floored(p.temp, p.duty, policy.floor.value.duty);
      }
    } else {
      assert forall i: nat, w :: !FloorReported([], policy, i, w);
    }
  }

  /** Some earlier point is faster, and `now` is the fastest of them. */
  ghost predicate RaiseReported(ps: seq<FanPoint>, i: nat, w: Warning) {
    && i < |ps| && w.Raised? && w.temp == ps[i].temp && w.was == ps[i].duty < w.now
    && (exists k :: 0 <= k < i && ps[k].duty == w.now)
    && (forall k :: 0 <= k < i ==> ps[k].duty <= w.now)
  }

  /** What the running maximum has reached. */
  lemma {:induction false} RunningMaximum(ps: seq<FanPoint>)
    ensures |RaiseAll(ps)| == |ps|
    ensures ps != [] ==>
      var top := Last(RaiseAll(ps)).duty;
      (exists k :: 0 <= k < |ps| && ps[k].duty == top) && (forall k :: 0 <= k < |ps| ==> ps[k].duty <= top)
  {
    if ps != [] {
      var front := Front(ps);
      RunningMaximum(front);
      if front != [] {
        var k :| 0 <= k < |front| && front[k].duty == Last(RaiseAll(front)).duty;
        assert ps[k].duty == front[k].duty;
        assert forall j :: 0 <= j < |front| ==> ps[j].duty == front[j].duty;
      }
      assert ps[|ps| - 1] == Last(ps);
    }
  }

  lemma RaiseReportedAtEnd(ps: seq<FanPoint>, w: Warning)
    requires ps != []
    ensures RaiseReported(ps, |ps| - 1, w) <==>
      |ps| > 1 && Last(ps).duty < Last(RaiseAll(Front(ps))).duty
      && w == Raised(Last(ps).temp, Last(ps).duty, Last(RaiseAll(Front(ps))).duty)
  {
    var front := Front(ps);
    RunningMaximum(front);
    assert forall k :: 0 <= k < |front| ==> ps[k].duty == front[k].duty;
    if front != [] {
      var k :| 0 <= k < |front| && front[k].duty == Last(RaiseAll(front)).duty;
      assert ps[k].duty == front[k].duty;
    }
  }

  ghost predicate RaiseSaid(ps: seq<FanPoint>, w: Warning) {
    exists i: nat :: RaiseReported(ps, i, w)
  }

  lemma RaiseSaidStep(ps: seq<FanPoint>, w: Warning)
    requires ps != []
    ensures RaiseSaid(ps, w) <==> RaiseSaid(Front(ps), w) || RaiseReported(ps, |ps| - 1, w)
  {
    var front := Front(ps);
    assert forall k :: 0 <= k < |front| ==> ps[k] == front[k];
    if i: nat :| RaiseReported(front, i, w) { assert RaiseReported(ps, i, w); }
    if i: nat :| RaiseReported(ps, i, w) && i < |front| { assert RaiseReported(front, i, w); }
  }

  /** The running maximum reports exactly the points slower than an earlier one, with the
      duty of the fastest earlier one. */
  lemma {:induction false} RaiseWarningsSay(ps: seq<FanPoint>)
    ensures forall w :: w in RaiseWarnings(ps) <==> RaiseSaid(ps, w)
  {
    if ps != [] {
      hide RaiseSaid;
      var front := Front(ps);
      RaiseWarningsSay(front);
      forall w ensures w in RaiseWarnings(ps) <==> RaiseSaid(ps, w) {
        RaiseSaidStep(ps, w);
        RunningMaximum(front);
        RaiseReportedAtEnd(ps, w);
      }
    } else {
      assert forall i: nat, w :: !RaiseReported([], i, w);
    }
  }

  ghost predicate MergeReported(ps: seq<FanPoint>, i: nat, w: Warning) {
    0 < i < |ps| && ps[i - 1].temp == ps[i].temp && w == Merged(ps[i].temp)
  }

  lemma {:induction false} MergeEndsAtLast(ps: seq<FanPoint>)
    ensures ps == [] <==> MergeEqual(ps) == []
    ensures ps != [] ==> Last(MergeEqual(ps)).temp == Last(ps).temp
  {
    if ps != [] { MergeEndsAtLast(Front(ps)); }
  }

  ghost predicate MergeSaid(ps: seq<FanPoint>, w: Warning) {
    exists i: nat :: MergeReported(ps, i, w)
  }

  lemma MergeSaidStep(ps: seq<FanPoint>, w: Warning)
    requires ps != []
    ensures MergeSaid(ps, w) <==> MergeSaid(Front(ps), w) || MergeReported(ps, |ps| - 1, w)
  {
    var front := Front(ps);
    assert forall k :: 0 <= k < |front| ==> ps[k] == front[k];
    if i: nat :| MergeReported(front, i, w) { assert MergeReported(ps, i, w); }
    if i: nat :| MergeReported(ps, i, w) && i < |front| { assert MergeReported(front, i, w); }
  }

  /** Merging reports exactly the points as hot as the one before. */
  lemma {:induction false} MergeWarningsSay(ps: seq<FanPoint>)
    ensures forall w :: w in MergeWarnings(ps) <==> MergeSaid(ps, w)
  {
    if ps != [] {
      hide MergeSaid;
      var front := Front(ps);
      MergeWarningsSay(front);
      forall w ensures w in MergeWarnings(ps) <==> MergeSaid(ps, w) {
        MergeSaidStep(ps, w);
        MergeEndsAtLast(front);
      }
    } else {
      assert forall i: nat, w :: !MergeReported([], i, w);
    }
  }

  lemma SortedExactly(ps: seq<FanPoint>, policy: CurvePolicy)
    ensures Ordered(ps, policy) == ClampAll(ps, policy) <==> NoColder(ClampAll(ps, policy))
  {
    SortSorts(ClampAll(ps, policy));
    if NoColder(ClampAll(ps, policy)) { SortKeepsSorted(ClampAll(ps, policy)); }
  }

  /** Each pass has its own kind of warning. */
  lemma Kinds(ps: seq<FanPoint>, policy: CurvePolicy, sorted: seq<FanPoint>, merged: seq<FanPoint>,
              lowered: seq<FanPoint>, w: Warning)
    ensures w in ClampWarnings(ps, policy) ==> w.Clamped?
    ensures w in MergeWarnings(sorted) ==> w.Merged?
    ensures w in FloorWarnings(merged, policy) ==> w.Floored?
    ensures w in RaiseWarnings(lowered) ==> w.Raised?
  {
    hide ClampWarnings, MergeWarnings, FloorWarnings, RaiseWarnings;
    ClampWarningsSay(ps, policy);
    MergeWarningsSay(sorted);
    FloorWarningsSay(merged, policy);
    RaiseWarningsSay(lowered);
  }

  /** Main result: a warning is given exactly when it names a point as some pass found it:
      out of bounds, out of order, as hot as another, under the floor, or slower than a
      colder one. */
  lemma WarningsSay(ps: seq<FanPoint>, policy: CurvePolicy, w: Warning)
    ensures w in Warnings(ps, policy) <==>
      match w
      case Clamped(_, _) => ClampSaid(ps, policy, w)
      case Sorted => !NoColder(ClampAll(ps, policy))
      case Merged(_) => MergeSaid(Ordered(ps, policy), w)
      case Floored(_, _, _) => FloorSaid(MergeEqual(Ordered(ps, policy)), policy, w)
      case Raised(_, _, _) => policy.monotonic && RaiseSaid(Lowered(ps, policy), w)
  {
    hide ClampWarnings, MergeWarnings, FloorWarnings, RaiseWarnings;
    hide ClampSaid, MergeSaid, FloorSaid, RaiseSaid, MergeEqual, Ordered, Lowered, ClampAll;
    var clamped, sorted, lowered := ClampAll(ps, policy), Ordered(ps, policy), Lowered(ps, policy);
    ClampWarningsSay(ps, policy);
    MergeWarningsSay(sorted);
    FloorWarningsSay(MergeEqual(sorted), policy);
    RaiseWarningsSay(lowered);
    SortedExactly(ps, policy);
    Kinds(ps, policy, sorted, MergeEqual(sorted), lowered, w);
  }
}
