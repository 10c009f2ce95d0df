/** The closed form of the sanitizer, and what follows from it. */
module FanCurveLaws {
  import opened Common
  import opened FanCurve

  // ---------------------------------------------------------------- the closed form

  function Front(ps: seq<FanPoint>): seq<FanPoint>
    requires ps != []
  {
    ps[..|ps| - 1]
  }

  function Last(ps: seq<FanPoint>): FanPoint
    requires ps != []
  {
    ps[|ps| - 1]
  }

  function Temps(ps: seq<FanPoint>): set<u8> {
    if ps == [] then {} else Temps(Front(ps)) + {Last(ps).temp}
  }

  /** Whether a clamped point has a say in the duty at `temp`. */
  predicate Says(p: FanPoint, temp: u8, policy: CurvePolicy) {
    if policy.monotonic then p.temp <= temp else p.temp == temp
  }

  /** What one clamped point asks for at `temp`: its duty, or the floor's at and above
      the floor's temperature if that is higher. */
  function Ask(p: FanPoint, policy: CurvePolicy, temp: u8): int {
    if !Says(p, temp, policy) then -1
    else if policy.floor.Some? && policy.floor.value.temp <= p.temp && p.duty < policy.floor.value.duty
    then policy.floor.value.duty
    else p.duty
  }

  /** The largest duty that any of the clamped points asks for at `temp`. */
  function Largest(ps: seq<FanPoint>, policy: CurvePolicy, temp: u8): int {
    if ps == [] then -1 else Max(Largest(Front(ps), policy, temp), Ask(Last(ps), policy, temp))
  }

  predicate StrictlyHotter(ps: seq<FanPoint>) {
    forall i, j :: 0 <= i < j < |ps| ==> ps[i].temp < ps[j].temp
  }

  predicate NoColder(ps: seq<FanPoint>) {
    forall i, j :: 0 <= i < j < |ps| ==> ps[i].temp <= ps[j].temp
  }

  /** The temperatures are the distinct clamped inputs, in order, and every duty is
      the largest that the clamped inputs ask for there. */
  ghost predicate IsClosedForm(input: seq<FanPoint>, policy: CurvePolicy, out: seq<FanPoint>) {
    var clamped := ClampAll(input, policy);
    && StrictlyHotter(out)
    && Temps(out) == Temps(clamped)
    && forall i :: 0 <= i < |out| ==> out[i].duty == Largest(clamped, policy, out[i].temp)
  }

  /** What `Largest` means. */
  lemma {:induction false} LargestIsLargest(ps: seq<FanPoint>, policy: CurvePolicy, temp: u8)
    ensures forall i :: 0 <= i < |ps| ==> Ask(ps[i], policy, temp) <= Largest(ps, policy, temp)
    ensures Largest(ps, policy, temp) == -1
            || exists i :: 0 <= i < |ps| && Ask(ps[i], policy, temp) == Largest(ps, policy, temp)
  {
    if ps != [] {
      var front := Front(ps);
      LargestIsLargest(front, policy, temp);
      if i :| 0 <= i < |front| && Ask(front[i], policy, temp) == Largest(front, policy, temp) {
        assert Ask(ps[i], policy, temp) == Largest(front, policy, temp);
      }
    }
  }

  lemma {:induction false} TempsAreTemps(ps: seq<FanPoint>)
    ensures forall i :: 0 <= i < |ps| ==> ps[i].temp in Temps(ps)
    ensures forall t :: t in Temps(ps) ==> exists i :: 0 <= i < |ps| && ps[i].temp == t
  {
    if ps != [] {
      var front := Front(ps);
      TempsAreTemps(front);
      forall t | t in Temps(ps) ensures exists i :: 0 <= i < |ps| && ps[i].temp == t {
        if t in Temps(front) {
          var i :| 0 <= i < |front| && front[i].temp == t;
          assert ps[i].temp == t;
        } else {
          assert ps[|ps| - 1].temp == t;
        }
      }
    }
  }

  // ---------------------------------------------------------------- the passes keep it

  lemma {:induction false} InsertKeeps(ps: seq<FanPoint>, p: FanPoint, policy: CurvePolicy, temp: u8)
    ensures Temps(InsertByTemp(ps, p)) == Temps(ps) + {p.temp}
    ensures Largest(InsertByTemp(ps, p), policy, temp) == Max(Largest(ps, policy, temp), Ask(p, policy, temp))
  {
    var out := InsertByTemp(ps, p);
    if ps != [] && p.temp < Last(ps).temp {
      InsertKeeps(Front(ps), p, policy, temp);
      assert Front(out) == InsertByTemp(Front(ps), p);
    } else {
      assert Front(out) == ps;
    }
  }

  lemma {:induction false} SortKeeps(ps: seq<FanPoint>, policy: CurvePolicy, temp: u8)
    ensures Temps(SortByTemp(ps)) == Temps(ps)
    ensures Largest(SortByTemp(ps), policy, temp) == Largest(ps, policy, temp)
  {
    if ps != [] {
      SortKeeps(Front(ps), policy, temp);
      InsertKeeps(SortByTemp(Front(ps)), Last(ps), policy, temp);
    }
  }

  lemma {:induction false} InsertSorts(ps: seq<FanPoint>, p: FanPoint)
    requires NoColder(ps)
    ensures var out := InsertByTemp(ps, p);
      NoColder(out) && out != [] && (Last(out) == p || (ps != [] && Last(out) == Last(ps)))
  {
    if ps != [] && p.temp < Last(ps).temp {
      InsertSorts(Front(ps), p);
    }
  }

  /** The points of one temperature, in their order. */
  function OfTemp(ps: seq<FanPoint>, temp: u8): seq<FanPoint> {
    if ps == [] then [] else OfTemp(Front(ps), temp) + if Last(ps).temp == temp then [Last(ps)] else []
  }

  lemma OfTempAppends(ps: seq<FanPoint>, p: FanPoint, temp: u8)
    ensures OfTemp(ps + [p], temp) == OfTemp(ps, temp) + if p.temp == temp then [p] else []
  {
    assert Front(ps + [p]) == ps;
  }

  lemma {:induction false} InsertIsStable(ps: seq<FanPoint>, p: FanPoint, temp: u8)
    ensures OfTemp(InsertByTemp(ps, p), temp) == OfTemp(ps, temp) + if p.temp == temp then [p] else []
  {
    hide OfTemp;
    if ps != [] && p.temp < Last(ps).temp {
      InsertIsStable(Front(ps), p, temp);
      OfTempAppends(InsertByTemp(Front(ps), p), Last(ps), temp);
      OfTempAppends(Front(ps), Last(ps), temp);
      assert ps == Front(ps) + [Last(ps)];
    } else {
      OfTempAppends(ps, p, temp);
    }
  }

  lemma {:induction false} InsertPermutes(ps: seq<FanPoint>, p: FanPoint)
    ensures multiset(InsertByTemp(ps, p)) == multiset(ps) + multiset{p}
  {
    if ps != [] && p.temp < Last(ps).temp {
      InsertPermutes(Front(ps), p);
      assert ps == Front(ps) + [Last(ps)];
    }
  }

  /** Sorting is a stable permutation: no point comes before a colder one, the points
      are the same, and points of one temperature keep their order. */
  lemma {:induction false} SortSorts(ps: seq<FanPoint>)
    ensures NoColder(SortByTemp(ps))
    ensures multiset(SortByTemp(ps)) == multiset(ps)
    ensures forall temp: u8 :: OfTemp(SortByTemp(ps), temp) == OfTemp(ps, temp)
  {
    if ps != [] {
      var front, p := Front(ps), Last(ps);
      SortSorts(front);
      InsertSorts(SortByTemp(front), p);
      InsertPermutes(SortByTemp(front), p);
      assert ps == front + [p];
      forall temp: u8 ensures OfTemp(SortByTemp(ps), temp) == OfTemp(ps, temp) {
        InsertIsStable(SortByTemp(front), p, temp);
        OfTempAppends(front, p, temp);
      }
    }
  }

  lemma InsertAtEnd(front: seq<FanPoint>, p: FanPoint)
    ensures (front != [] ==> Last(front).temp <= p.temp) ==> InsertByTemp(front, p) == front + [p]
  {
  }

  lemma {:induction false} SortKeepsSorted(ps: seq<FanPoint>)
    requires NoColder(ps)
    ensures SortByTemp(ps) == ps
  {
    if ps != [] {
      var front, p := Front(ps), Last(ps);
      SortKeepsSorted(front);
      InsertAtEnd(front, p);
      assert front != [] ==> Last(front) == ps[|ps| - 2];
      assert front + [p] == ps;
    }
  }

  lemma FloorOfMax(temp: u8, a: u8, b: u8, policy: CurvePolicy)
    ensures FloorPoint(FanPoint(temp, Max(a, b)), policy).duty
         == Max(FloorPoint(FanPoint(temp, a), policy).duty, FloorPoint(FanPoint(temp, b), policy).duty)
  {
  }

  lemma {:induction false} MergeKeeps(ps: seq<FanPoint>, policy: CurvePolicy, temp: u8)
    ensures Temps(MergeEqual(ps)) == Temps(ps)
    ensures Largest(MergeEqual(ps), policy, temp) == Largest(ps, policy, temp)
  {
    if ps != [] {
      var done, p, out := MergeEqual(Front(ps)), Last(ps), MergeEqual(ps);
      MergeKeeps(Front(ps), policy, temp);
      if done != [] && Last(done).temp == p.temp {
        FloorOfMax(p.temp, Last(done).duty, p.duty, policy);
        assert Front(out) == Front(done);
      } else {
        assert Front(out) == done;
      }
    }
  }

  lemma {:induction false} MergeSeparates(ps: seq<FanPoint>)
    requires NoColder(ps)
    ensures var out := MergeEqual(ps);
      StrictlyHotter(out) && (ps != [] ==> out != [] && Last(out).temp == Last(ps).temp)
  {
    if ps != [] {
      MergeSeparates(Front(ps));
    }
  }

  lemma {:induction false} MergeKeepsSeparate(ps: seq<FanPoint>)
    requires StrictlyHotter(ps)
    ensures MergeEqual(ps) == ps && MergeWarnings(ps) == []
  {
    if ps != [] {
      var front, p := Front(ps), Last(ps);
      MergeKeepsSeparate(front);
      assert front != [] ==> Last(front) == ps[|ps| - 2] && Last(front).temp < p.temp;
      assert MergeEqual(ps) == front + [p] == ps;
    }
  }

  lemma {:induction false} FloorKeeps(ps: seq<FanPoint>, policy: CurvePolicy, temp: u8)
    ensures Temps(FloorAll(ps, policy)) == Temps(ps)
    ensures Largest(FloorAll(ps, policy), policy, temp) == Largest(ps, policy, temp)
  {
    if ps != [] {
      FloorKeeps(Front(ps), policy, temp);
      assert Front(FloorAll(ps, policy)) == FloorAll(Front(ps), policy);
    }
  }

  lemma {:induction false} FloorIsPointwise(ps: seq<FanPoint>, policy: CurvePolicy)
    ensures |FloorAll(ps, policy)| == |ps|
    ensures forall i :: 0 <= i < |ps| ==> FloorAll(ps, policy)[i] == FloorPoint(ps[i], policy)
  {
    if ps != [] { FloorIsPointwise(Front(ps), policy); }
  }

  lemma {:induction false} ClampIsPointwise(ps: seq<FanPoint>, policy: CurvePolicy)
    ensures |ClampAll(ps, policy)| == |ps|
    ensures forall i :: 0 <= i < |ps| ==> ClampAll(ps, policy)[i] == ClampPoint(ps[i], policy)
  {
    if ps != [] { ClampIsPointwise(Front(ps), policy); }
  }

  /** No point asks for less than the floor. */
  predicate AboveFloor(ps: seq<FanPoint>, policy: CurvePolicy) {
    forall i :: 0 <= i < |ps| ==> !BelowFloor(ps[i], policy)
  }

  /** A point that is too hot to have a say changes nothing. */
  lemma LargestOfFront(ps: seq<FanPoint>, policy: CurvePolicy, temp: u8)
    requires ps != [] && temp < Last(ps).temp
    ensures Largest(ps, policy, temp) == Largest(Front(ps), policy, temp)
  {
    if Front(ps) != [] { LargestIsLargest(Front(ps), policy, temp); }
    NotBelowMinusOne(Front(ps), policy, temp);
  }

  lemma {:induction false} NotBelowMinusOne(ps: seq<FanPoint>, policy: CurvePolicy, temp: u8)
    ensures Largest(ps, policy, temp) >= -1
  {
    if ps != [] { NotBelowMinusOne(Front(ps), policy, temp); }
  }

  /** Where all points have a say, the running maximum ends at the largest duty. */
  lemma {:induction false} RaiseEndsAtLargest(ps: seq<FanPoint>, policy: CurvePolicy, temp: u8)
    requires policy.monotonic && AboveFloor(ps, policy) && forall i :: 0 <= i < |ps| ==> ps[i].temp <= temp
    ensures |RaiseAll(ps)| == |ps|
    ensures Largest(ps, policy, temp) == if ps == [] then -1 else Last(RaiseAll(ps)).duty
  {
    if ps != [] { RaiseEndsAtLargest(Front(ps), policy, temp); }
  }

  lemma {:induction false} RaiseKeepsTemps(ps: seq<FanPoint>)
    ensures |RaiseAll(ps)| == |ps| && Temps(RaiseAll(ps)) == Temps(ps)
    ensures forall i :: 0 <= i < |ps| ==> RaiseAll(ps)[i].temp == ps[i].temp
  {
    if ps != [] {
      RaiseKeepsTemps(Front(ps));
      assert Front(RaiseAll(ps)) == RaiseAll(Front(ps));
    }
  }

  lemma {:induction false} RaisedDuties(low: seq<FanPoint>, policy: CurvePolicy, i: nat)
    requires policy.monotonic && StrictlyHotter(low) && AboveFloor(low, policy) && i < |low|
    ensures |RaiseAll(low)| == |low| && RaiseAll(low)[i].duty == Largest(low, policy, low[i].temp)
    decreases |low|
  {
    RaiseKeepsTemps(low);
    if i < |low| - 1 {
      RaisedDuties(Front(low), policy, i);
      LargestOfFront(low, policy, low[i].temp);
    } else {
      RaiseEndsAtLargest(low, policy, low[i].temp);
    }
  }

  lemma {:induction false} SeparateDuties(low: seq<FanPoint>, policy: CurvePolicy, i: nat)
    requires !policy.monotonic && StrictlyHotter(low) && AboveFloor(low, policy) && i < |low|
    ensures low[i].duty == Largest(low, policy, low[i].temp)
    decreases |low|
  {
    if i < |low| - 1 {
      SeparateDuties(Front(low), policy, i);
      LargestOfFront(low, policy, low[i].temp);
    } else {
      LargestIsLargest(low, policy, low[i].temp);
      assert forall j :: 0 <= j < i ==> Ask(low[j], policy, low[i].temp) == -1;
      assert Ask(low[i], policy, low[i].temp) == low[i].duty;
    }
  }

  lemma FloorKeepsShape(ps: seq<FanPoint>, policy: CurvePolicy)
    requires StrictlyHotter(ps)
    ensures StrictlyHotter(FloorAll(ps, policy)) && AboveFloor(FloorAll(ps, policy), policy)
  {
    FloorIsPointwise(ps, policy);
  }

  lemma LoweredKeeps(input: seq<FanPoint>, policy: CurvePolicy, temp: u8)
    ensures var low, clamped := Lowered(input, policy), ClampAll(input, policy);
      && StrictlyHotter(low) && AboveFloor(low, policy)
      && Temps(low) == Temps(clamped)
      && Largest(low, policy, temp) == Largest(clamped, policy, temp)
  {
    hide SortByTemp, MergeEqual, FloorAll, ClampAll, Largest, Temps, StrictlyHotter, NoColder, AboveFloor;
    var clamped := ClampAll(input, policy);
    var sorted := SortByTemp(clamped);
    SortKeeps(clamped, policy, temp);
    SortSorts(clamped);
    MergeKeeps(sorted, policy, temp);
    MergeSeparates(sorted);
    FloorKeeps(MergeEqual(sorted), policy, temp);
    FloorKeepsShape(MergeEqual(sorted), policy);
  }

  /** Main result: the sanitizer computes its closed form. */
  lemma SanitizedIsClosedForm(input: seq<FanPoint>, policy: CurvePolicy)
    ensures IsClosedForm(input, policy, Sanitized(input, policy))
  {
    var low, out := Lowered(input, policy), Sanitized(input, policy);
    LoweredKeeps(input, policy, 0);
    RaiseKeepsTemps(low);
    forall i | 0 <= i < |out| ensures out[i].duty == Largest(ClampAll(input, policy), policy, out[i].temp) {
      LoweredKeeps(input, policy, low[i].temp);
      if policy.monotonic {
        RaisedDuties(low, policy, i);
      } else {
        SeparateDuties(low, policy, i);
      }
    }
  }

  // ---------------------------------------------------------------- uniqueness

  lemma LastIsHottest(a: seq<FanPoint>)
    requires a != [] && StrictlyHotter(a)
    ensures Last(a).temp in Temps(a) && forall t :: t in Temps(a) ==> t <= Last(a).temp
    ensures Temps(Front(a)) == Temps(a) - {Last(a).temp}
  {
    TempsAreTemps(a);
    TempsAreTemps(Front(a));
  }

  lemma {:induction false} SameTemps(a: seq<FanPoint>, b: seq<FanPoint>)
    requires StrictlyHotter(a) && StrictlyHotter(b) && Temps(a) == Temps(b)
    ensures |a| == |b| && forall i :: 0 <= i < |a| ==> a[i].temp == b[i].temp
  {
    if a != [] && b != [] {
      LastIsHottest(a);
      LastIsHottest(b);
      assert Last(b).temp == Last(a).temp;
      SameTemps(Front(a), Front(b));
    }
  }

  lemma LargestOfSameSet(a: seq<FanPoint>, b: seq<FanPoint>, policy: CurvePolicy, temp: u8)
    requires forall p :: p in a ==> p in b
    ensures Largest(a, policy, temp) <= Largest(b, policy, temp)
  {
    LargestIsLargest(a, policy, temp);
    LargestIsLargest(b, policy, temp);
    NotBelowMinusOne(b, policy, temp);
    if i :| 0 <= i < |a| && Ask(a[i], policy, temp) == Largest(a, policy, temp) {
      assert a[i] in b;
      var j :| 0 <= j < |b| && b[j] == a[i];
    }
  }

  lemma TempsOfSameSet(a: seq<FanPoint>, b: seq<FanPoint>)
    requires forall p :: p in a ==> p in b
    ensures Temps(a) <= Temps(b)
  {
    TempsAreTemps(a);
    TempsAreTemps(b);
    forall t | t in Temps(a) ensures t in Temps(b) {
      var i :| 0 <= i < |a| && a[i].temp == t;
      assert a[i] in b;
      var j :| 0 <= j < |b| && b[j] == a[i];
    }
  }

  lemma ClampOfSameSet(a: seq<FanPoint>, b: seq<FanPoint>, policy: CurvePolicy)
    requires forall p :: p in a ==> p in b
    ensures forall p :: p in ClampAll(a, policy) ==> p in ClampAll(b, policy)
  {
    ClampIsPointwise(a, policy);
    ClampIsPointwise(b, policy);
    forall p | p in ClampAll(a, policy) ensures p in ClampAll(b, policy) {
      var i :| 0 <= i < |a| && ClampAll(a, policy)[i] == p;
      assert a[i] in b;
      var j :| 0 <= j < |b| && b[j] == a[i];
      assert ClampAll(b, policy)[j] == p;
    }
  }

  lemma ClosedFormUnique(input: seq<FanPoint>, policy: CurvePolicy, a: seq<FanPoint>, b: seq<FanPoint>)
    requires IsClosedForm(input, policy, a) && IsClosedForm(input, policy, b)
    ensures a == b
  {
    SameTemps(a, b);
    forall i | 0 <= i < |a| ensures a[i] == b[i] {
      assert a[i].temp == b[i].temp;
    }
  }

  /** Main result: the points depend only on which points the curve has, not on
      their order or on repetitions. */
  lemma OrderDoesNotMatter(a: seq<FanPoint>, b: seq<FanPoint>, policy: CurvePolicy)
    requires forall p :: p in a <==> p in b
    ensures Sanitized(a, policy) == Sanitized(b, policy)
  {
    SanitizedIsClosedForm(a, policy);
    SanitizedIsClosedForm(b, policy);
    var x, y := ClampAll(a, policy), ClampAll(b, policy);
    ClampOfSameSet(a, b, policy);
    ClampOfSameSet(b, a, policy);
    TempsOfSameSet(x, y);
    TempsOfSameSet(y, x);
    forall temp: u8 ensures Largest(x, policy, temp) == Largest(y, policy, temp) {
      LargestOfSameSet(x, y, policy, temp);
      LargestOfSameSet(y, x, policy, temp);
    }
    ClosedFormUnique(a, policy, Sanitized(a, policy), Sanitized(b, policy));
  }

  // ---------------------------------------------------------------- idempotence

  predicate NeverFalls(ps: seq<FanPoint>) {
    forall i, j :: 0 <= i < j < |ps| ==> ps[i].duty <= ps[j].duty
  }

  predicate FloorFits(policy: CurvePolicy) {
    policy.floor.None? || policy.floor.value.duty <= policy.dutyMax || policy.floor.value.temp > policy.tempMax
  }

  /** Points that neither clamping nor the floor would change, except that a floor
      above the highest duty may be clamped and raised again. */
  predicate Settled(p: FanPoint, policy: CurvePolicy) {
    ClampPoint(p, policy).temp == p.temp && FloorPoint(ClampPoint(p, policy), policy) == p
  }

  /** The duty at a point of a sanitized curve was asked for by some input, and by
      an input at that very temperature or one that is no higher. */
  lemma DutyHasSource(input: seq<FanPoint>, policy: CurvePolicy, p: FanPoint) returns (j: nat, k: nat)
    requires p in Sanitized(input, policy)
    ensures j < |input| && k < |input|
    ensures ClampPoint(input[j], policy).temp == p.temp
    ensures FloorPoint(ClampPoint(input[j], policy), policy).duty <= p.duty
    ensures Ask(ClampPoint(input[k], policy), policy, p.temp) == p.duty
  {
    var out, clamped := Sanitized(input, policy), ClampAll(input, policy);
    SanitizedIsClosedForm(input, policy);
    ClampIsPointwise(input, policy);
    TempsAreTemps(out);
    TempsAreTemps(clamped);
    LargestIsLargest(clamped, policy, p.temp);
    j :| 0 <= j < |clamped| && clamped[j].temp == p.temp;
    assert Ask(clamped[j], policy, p.temp) <= p.duty;
    k :| 0 <= k < |clamped| && Ask(clamped[k], policy, p.temp) == p.duty;
  }

  /** Every point of a sanitized curve is settled. */
  lemma OutputIsSettled(input: seq<FanPoint>, policy: CurvePolicy, i: nat)
    requires Clampable(policy) && i < |Sanitized(input, policy)|
    ensures Settled(Sanitized(input, policy)[i], policy)
    ensures !BelowFloor(Sanitized(input, policy)[i], policy)
    ensures FloorFits(policy) ==> ClampPoint(Sanitized(input, policy)[i], policy) == Sanitized(input, policy)[i]
  {
    var p := Sanitized(input, policy)[i];
    var j, k := DutyHasSource(input, policy, p);
    SourcedIsSettled(p, ClampPoint(input[j], policy), ClampPoint(input[k], policy), input[j], input[k], policy);
  }

  lemma SourcedIsSettled(p: FanPoint, low: FanPoint, high: FanPoint, x: FanPoint, y: FanPoint, policy: CurvePolicy)
    requires Clampable(policy) && low == ClampPoint(x, policy) && high == ClampPoint(y, policy)
    requires low.temp == p.temp && FloorPoint(low, policy).duty <= p.duty && Ask(high, policy, p.temp) == p.duty
    ensures Settled(p, policy) && !BelowFloor(p, policy)
    ensures FloorFits(policy) ==> ClampPoint(p, policy) == p
  {
  }

  lemma {:induction false} ClampedAgain(ps: seq<FanPoint>, policy: CurvePolicy, temp: u8)
    requires forall i :: 0 <= i < |ps| ==> Settled(ps[i], policy)
    ensures Temps(ClampAll(ps, policy)) == Temps(ps)
    ensures Largest(ClampAll(ps, policy), policy, temp) == Largest(ps, policy, temp)
  {
    if ps != [] {
      ClampedAgain(Front(ps), policy, temp);
      assert Front(ClampAll(ps, policy)) == ClampAll(Front(ps), policy);
    }
  }

  lemma AppendHigher(front: seq<FanPoint>, p: FanPoint)
    requires NeverFalls(front) && (front != [] ==> Last(front).duty <= p.duty)
    ensures NeverFalls(front + [p])
  {
    forall i, j | 0 <= i < j < |front + [p]| ensures (front + [p])[i].duty <= (front + [p])[j].duty {
      if j == |front| { assert i == |front| - 1 || front[i].duty <= Last(front).duty; }
    }
  }

  lemma OutputIsMonotonic(input: seq<FanPoint>, policy: CurvePolicy)
    requires policy.monotonic
    ensures NeverFalls(Sanitized(input, policy))
  {
    RaiseIsMonotonic(Lowered(input, policy));
  }

  lemma {:induction false} RaiseIsMonotonic(ps: seq<FanPoint>)
    ensures |RaiseAll(ps)| == |ps| && NeverFalls(RaiseAll(ps))
  {
    if ps != [] {
      RaiseIsMonotonic(Front(ps));
      AppendHigher(RaiseAll(Front(ps)), Last(RaiseAll(ps)));
    }
  }

  /** A settled curve asks at each of its temperatures for the duty that it has there. */
  lemma SettledAsksForItself(out: seq<FanPoint>, policy: CurvePolicy, i: nat)
    requires i < |out| && StrictlyHotter(out) && (policy.monotonic ==> NeverFalls(out))
    requires forall k :: 0 <= k < |out| ==> Settled(out[k], policy) && !BelowFloor(out[k], policy)
    ensures out[i].duty == Largest(ClampAll(out, policy), policy, out[i].temp)
  {
    var temp := out[i].temp;
    ClampedAgain(out, policy, temp);
    LargestIsLargest(out, policy, temp);
    assert Ask(out[i], policy, temp) == out[i].duty;
    forall k | 0 <= k < |out| ensures Ask(out[k], policy, temp) <= out[i].duty {
      assert k < i ==> out[k].temp < temp;
      assert i < k ==> temp < out[k].temp;
    }
  }

  /** Main result: sanitizing twice gives the points of sanitizing once. */
  lemma SanitizeIdempotent(input: seq<FanPoint>, policy: CurvePolicy)
    requires Clampable(policy)
    ensures Sanitized(Sanitized(input, policy), policy) == Sanitized(input, policy)
  {
    var out := Sanitized(input, policy);
    forall i | 0 <= i < |out| ensures Settled(out[i], policy) && !BelowFloor(out[i], policy) {
      OutputIsSettled(input, policy, i);
    }
    if policy.monotonic { OutputIsMonotonic(input, policy); }
    SanitizedIsClosedForm(input, policy);
    SettledIsClosedForm(out, policy);
    SanitizedIsClosedForm(out, policy);
    ClosedFormUnique(out, policy, Sanitized(out, policy), out);
  }

  lemma SettledIsClosedForm(out: seq<FanPoint>, policy: CurvePolicy)
    requires StrictlyHotter(out) && (policy.monotonic ==> NeverFalls(out))
    requires forall k :: 0 <= k < |out| ==> Settled(out[k], policy) && !BelowFloor(out[k], policy)
    ensures IsClosedForm(out, policy, out)
  {
    ClampedAgain(out, policy, 0);
    forall i | 0 <= i < |out| ensures out[i].duty == Largest(ClampAll(out, policy), policy, out[i].temp) {
      SettledAsksForItself(out, policy, i);
    }
  }

  // ---------------------------------------------------------------- warnings

  /** Nothing to correct in the curve. */
  predicate Clean(ps: seq<FanPoint>, policy: CurvePolicy) {
    && (forall i :: 0 <= i < |ps| ==> ClampPoint(ps[i], policy) == ps[i] && !BelowFloor(ps[i], policy))
    && StrictlyHotter(ps)
    && (policy.monotonic ==> NeverFalls(ps))
  }

  lemma {:induction false} CleanClamp(ps: seq<FanPoint>, policy: CurvePolicy)
    ensures ClampWarnings(ps, policy) == [] <==> forall i :: 0 <= i < |ps| ==> ClampPoint(ps[i], policy) == ps[i]
    ensures ClampWarnings(ps, policy) == [] ==> ClampAll(ps, policy) == ps
  {
    if ps != [] { CleanClamp(Front(ps), policy); }
  }

  lemma {:induction false} CleanFloor(ps: seq<FanPoint>, policy: CurvePolicy)
    ensures FloorWarnings(ps, policy) == [] <==> forall i :: 0 <= i < |ps| ==> !BelowFloor(ps[i], policy)
    ensures FloorWarnings(ps, policy) == [] ==> FloorAll(ps, policy) == ps
  {
    if ps != [] { CleanFloor(Front(ps), policy); }
  }

  lemma {:induction false} CleanMerge(ps: seq<FanPoint>)
    requires NoColder(ps)
    ensures MergeWarnings(ps) == [] ==> StrictlyHotter(ps)
  {
    if ps != [] && MergeWarnings(ps) == [] {
      var front, p := Front(ps), Last(ps);
      assert MergeWarnings(front) == [];
      CleanMerge(front);
      MergeKeepsSeparate(front);
      assert front != [] ==> Last(front) == ps[|ps| - 2] && Last(front).temp < p.temp;
      AppendHotter(front, p);
      assert ps == front + [p];
    }
  }

  lemma AppendHotter(front: seq<FanPoint>, p: FanPoint)
    requires StrictlyHotter(front) && (front != [] ==> Last(front).temp < p.temp)
    ensures StrictlyHotter(front + [p])
  {
    forall i, j | 0 <= i < j < |front + [p]| ensures (front + [p])[i].temp < (front + [p])[j].temp {
      if j == |front| { assert i == |front| - 1 || front[i].temp < Last(front).temp; }
    }
  }

  /** The running maximum and its warnings at one more point. */
  lemma RaiseAppends(front: seq<FanPoint>, p: FanPoint)
    ensures var done := RaiseAll(front);
      && RaiseAll(front + [p]) == done + [if done == [] then p else p.(duty := Max(Last(done).duty, p.duty))]
      && RaiseWarnings(front + [p]) == RaiseWarnings(front)
         + if done != [] && p.duty < Last(done).duty then [Raised(p.temp, p.duty, Last(done).duty)] else []
  {
    assert Front(front + [p]) == front;
  }

  lemma {:induction false} CleanRaise(ps: seq<FanPoint>)
    requires RaiseWarnings(ps) == []
    ensures RaiseAll(ps) == ps && NeverFalls(ps)
  {
    if ps != [] {
      var front, p := Front(ps), Last(ps);
      assert ps == front + [p];
      CleanFront(front, p);
      CleanRaise(front);
      CleanAppend(front, p);
    }
  }

  lemma CleanFront(front: seq<FanPoint>, p: FanPoint)
    requires RaiseWarnings(front + [p]) == []
    ensures RaiseWarnings(front) == []
    ensures RaiseAll(front) != [] ==> Last(RaiseAll(front)).duty <= p.duty
  {
    hide RaiseAll, RaiseWarnings;
    RaiseAppends(front, p);
    assert |RaiseWarnings(front + [p])| == 0;
  }

  lemma CleanAppend(front: seq<FanPoint>, p: FanPoint)
    requires RaiseAll(front) == front && NeverFalls(front) && (front != [] ==> Last(front).duty <= p.duty)
    ensures RaiseAll(front + [p]) == front + [p] && NeverFalls(front + [p])
    ensures RaiseWarnings(front) == [] ==> RaiseWarnings(front + [p]) == []
  {
    hide RaiseAll, RaiseWarnings;
    RaiseAppends(front, p);
    AppendHigher(front, p);
  }

  lemma {:induction false} RaiseKeepsMonotonic(ps: seq<FanPoint>)
    requires NeverFalls(ps)
    ensures RaiseAll(ps) == ps && RaiseWarnings(ps) == []
  {
    if ps != [] {
      var front, p := Front(ps), Last(ps);
      RaiseKeepsMonotonic(front);
      assert front != [] ==> Last(front) == ps[|ps| - 2] && Last(front).duty <= p.duty;
      assert ps == front + [p];
      CleanAppend(front, p);
    }
  }

  lemma NoWarningsMeansClean(ps: seq<FanPoint>, policy: CurvePolicy)
    requires Warnings(ps, policy) == []
    ensures Clean(ps, policy)
  {
    CleanClamp(ps, policy);
    CleanFloor(ps, policy);
    SortSorts(ps);
    CleanMerge(Ordered(ps, policy));
    assert Ordered(ps, policy) == ps;
    MergeKeepsSeparate(ps);
    assert Lowered(ps, policy) == ps;
    if policy.monotonic { CleanRaise(ps); }
  }

  lemma CleanMeansNoWarnings(ps: seq<FanPoint>, policy: CurvePolicy)
    requires Clean(ps, policy)
    ensures Warnings(ps, policy) == [] && Sanitized(ps, policy) == ps
  {
    CleanClamp(ps, policy);
    CleanFloor(ps, policy);
    SortKeepsSorted(ps);
    MergeKeepsSeparate(ps);
    if policy.monotonic { RaiseKeepsMonotonic(ps); }
  }

  /** There are no warnings exactly for curves that need no correction, and those
      are left as they are. */
  lemma NoWarningsIsClean(ps: seq<FanPoint>, policy: CurvePolicy)
    ensures Warnings(ps, policy) == [] <==> Clean(ps, policy)
    ensures Clean(ps, policy) ==> Sanitized(ps, policy) == ps
  {
    if Warnings(ps, policy) == [] { NoWarningsMeansClean(ps, policy); }
    if Clean(ps, policy) { CleanMeansNoWarnings(ps, policy); }
  }

  /** An unchanged curve was clean, as long as the floor fits. */
  lemma UnchangedIsClean(ps: seq<FanPoint>, policy: CurvePolicy)
    requires Clampable(policy) && FloorFits(policy) && Sanitized(ps, policy) == ps
    ensures Clean(ps, policy)
  {
    SanitizedIsClosedForm(ps, policy);
    forall i | 0 <= i < |ps| ensures ClampPoint(ps[i], policy) == ps[i] && !BelowFloor(ps[i], policy) {
      OutputIsSettled(ps, policy, i);
    }
    if policy.monotonic { OutputIsMonotonic(ps, policy); }
  }

  ghost predicate WarnsExactlyOnChange(policy: CurvePolicy) {
    forall ps: seq<FanPoint> :: Warnings(ps, policy) == [] <==> Sanitized(ps, policy) == ps
  }

  /** A floor above the highest duty that some temperature can reach: the point
      sitting on it is clamped down and raised back, with two warnings. */
  lemma UnfitFloorWarns(policy: CurvePolicy)
    requires Clampable(policy) && !FloorFits(policy)
    ensures var ps := [FanPoint(Max(policy.floor.value.temp, policy.tempMin), policy.floor.value.duty)];
      Sanitized(ps, policy) == ps && Warnings(ps, policy) != []
  {
    var p := FanPoint(Max(policy.floor.value.temp, policy.tempMin), policy.floor.value.duty);
    var q := p.(duty := policy.dutyMax);
    var ps := [p];
    assert ClampPoint(p, policy) == q && FloorPoint(q, policy) == p;
    OnePoint(p, policy);
    OnePoint(q, policy);
    assert Sanitized(ps, policy) == [p];
    assert !Clean(ps, policy) by {
      assert ClampPoint(ps[0], policy) != ps[0];
    }
    NoWarningsIsClean(ps, policy);
  }

  lemma OnePoint(p: FanPoint, policy: CurvePolicy)
    ensures ClampAll([p], policy) == [ClampPoint(p, policy)] && FloorAll([p], policy) == [FloorPoint(p, policy)]
    ensures SortByTemp([p]) == MergeEqual([p]) == RaiseAll([p]) == [p]
  {
    assert Front([p]) == [];
  }

  /** Main result: warnings are empty exactly when the points are unchanged, for
      all curves, if and only if the floor does not exceed the highest duty at any
      temperature in range. */
  lemma WarningsReportEveryChange(policy: CurvePolicy)
    requires Clampable(policy)
    ensures WarnsExactlyOnChange(policy) <==> FloorFits(policy)
  {
    if FloorFits(policy) {
      forall ps: seq<FanPoint> ensures Warnings(ps, policy) == [] <==> Sanitized(ps, policy) == ps {
        NoWarningsIsClean(ps, policy);
        if Sanitized(ps, policy) == ps { UnchangedIsClean(ps, policy); }
      }
    } else {
      UnfitFloorWarns(policy);
    }
  }
}
