/** Sanitizing a fan curve in place: clamp, sort, merge, floor and running maximum. */
module FanCurve {
  import opened Common

  datatype FanPoint = FanPoint(temp: u8, duty: u8)

  datatype SafeFloor = SafeFloor(temp: u8, duty: u8)

  datatype CurvePolicy = CurvePolicy(
    tempMin: u8,
    tempMax: u8,
    dutyMin: u8,
    dutyMax: u8,
    monotonic: bool,
    floor: Option<SafeFloor>,
    exactCount: Option<nat>,
    requireTerminal: bool,
    terminalTemp: u8)

  const DEFAULT_POLICY := CurvePolicy(30, 100, 0, 100, true, Some(SafeFloor(85, 70)), None, false, 95)

  const VERIFIED_ASUS_WRITE := DEFAULT_POLICY.(exactCount := Some(8), requireTerminal := true, terminalTemp := 95)

  datatype Warning =
    | Clamped(from: FanPoint, to: FanPoint)
    | Sorted
    | Merged(temp: u8)
    | Floored(temp: u8, was: u8, floor: u8)
    | Raised(temp: u8, was: u8, now: u8)

  /** What clamping demands of its bounds. */
  predicate Clampable(policy: CurvePolicy) {
    policy.tempMin <= policy.tempMax && policy.dutyMin <= policy.dutyMax
  }

  function Clamp(x: u8, low: u8, high: u8): (r: u8)
    ensures low <= x <= high ==> r == x
    ensures low <= high ==> low <= r <= high && (x < low ==> r == low) && (high < x ==> r == high)
  {
    if x < low then low else if x > high then high else x
  }

  // ---------------------------------------------------------------- the passes

  function ClampPoint(p: FanPoint, policy: CurvePolicy): (q: FanPoint)
    ensures policy.tempMin <= policy.tempMax ==> policy.tempMin <= q.temp <= policy.tempMax
    ensures policy.dutyMin <= policy.dutyMax ==> policy.dutyMin <= q.duty <= policy.dutyMax
  {
    FanPoint(Clamp(p.temp, policy.tempMin, policy.tempMax), Clamp(p.duty, policy.dutyMin, policy.dutyMax))
  }

  function ClampAll(ps: seq<FanPoint>, policy: CurvePolicy): seq<FanPoint> {
    if ps == [] then [] else ClampAll(ps[..|ps| - 1], policy) + [ClampPoint(ps[|ps| - 1], policy)]
  }

  function ClampWarnings(ps: seq<FanPoint>, policy: CurvePolicy): seq<Warning> {
    if ps == [] then []
    else
      var p, q := ps[|ps| - 1], ClampPoint(ps[|ps| - 1], policy);
      ClampWarnings(ps[..|ps| - 1], policy) + if p == q then [] else [Clamped(p, q)]
  }

  /** Inserts after every point that is not hotter, which keeps the sort stable. */
  function InsertByTemp(ps: seq<FanPoint>, p: FanPoint): seq<FanPoint> {
    if ps != [] && p.temp < ps[|ps| - 1].temp then InsertByTemp(ps[..|ps| - 1], p) + [ps[|ps| - 1]]
    else ps + [p]
  }

  function SortByTemp(ps: seq<FanPoint>): seq<FanPoint> {
    if ps == [] then [] else InsertByTemp(SortByTemp(ps[..|ps| - 1]), ps[|ps| - 1])
  }

  /** Points of equal temperature that follow each other become one, with the higher duty. */
  function MergeEqual(ps: seq<FanPoint>): seq<FanPoint> {
    if ps == [] then []
    else
      var done, p := MergeEqual(ps[..|ps| - 1]), ps[|ps| - 1];
      if done != [] && done[|done| - 1].temp == p.temp
      then done[|done| - 1 := FanPoint(p.temp, Max(done[|done| - 1].duty, p.duty))]
      else done + [p]
  }

  function MergeWarnings(ps: seq<FanPoint>): seq<Warning> {
    if ps == [] then []
    else
      var done, p := MergeEqual(ps[..|ps| - 1]), ps[|ps| - 1];
      MergeWarnings(ps[..|ps| - 1])
      + if done != [] && done[|done| - 1].temp == p.temp then [Merged(p.temp)] else []
  }

  predicate BelowFloor(p: FanPoint, policy: CurvePolicy) {
    policy.floor.Some? && p.temp >= policy.floor.value.temp && p.duty < policy.floor.value.duty
  }

  function FloorPoint(p: FanPoint, policy: CurvePolicy): FanPoint {
    if BelowFloor(p, policy) then p.(duty := policy.floor.value.duty) else p
  }

  function FloorAll(ps: seq<FanPoint>, policy: CurvePolicy): seq<FanPoint> {
    if ps == [] then [] else FloorAll(ps[..|ps| - 1], policy) + [FloorPoint(ps[|ps| - 1], policy)]
  }

  function FloorWarnings(ps: seq<FanPoint>, policy: CurvePolicy): seq<Warning> {
    if ps == [] then []
    else
      var p := ps[|ps| - 1];
      FloorWarnings(ps[..|ps| - 1], policy)
      + if BelowFloor(p, policy) then [Floored(p.temp, p.duty, policy.floor.value.duty)] else []
  }

  function RaiseAll(ps: seq<FanPoint>): seq<FanPoint> {
    if ps == [] then []
    else
      var done, p := RaiseAll(ps[..|ps| - 1]), ps[|ps| - 1];
      done + [if done == [] then p else p.(duty := Max(done[|done| - 1].duty, p.duty))]
  }

  function RaiseWarnings(ps: seq<FanPoint>): seq<Warning> {
    if ps == [] then []
    else
      var done, p := RaiseAll(ps[..|ps| - 1]), ps[|ps| - 1];
      RaiseWarnings(ps[..|ps| - 1])
      + if done != [] && p.duty < done[|done| - 1].duty then [Raised(p.temp, p.duty, done[|done| - 1].duty)] else []
  }

  function Ordered(ps: seq<FanPoint>, policy: CurvePolicy): seq<FanPoint> {
    SortByTemp(ClampAll(ps, policy))
  }

  function Lowered(ps: seq<FanPoint>, policy: CurvePolicy): seq<FanPoint> {
    FloorAll(MergeEqual(Ordered(ps, policy)), policy)
  }

  /** The points after all passes. */
  function Sanitized(ps: seq<FanPoint>, policy: CurvePolicy): seq<FanPoint> {
    if policy.monotonic then RaiseAll(Lowered(ps, policy)) else Lowered(ps, policy)
  }

  /** The warnings of all passes, in order. */
  function Warnings(ps: seq<FanPoint>, policy: CurvePolicy): seq<Warning> {
    ClampWarnings(ps, policy)
    + (if Ordered(ps, policy) != ClampAll(ps, policy) then [Sorted] else [])
    + MergeWarnings(Ordered(ps, policy))
    + FloorWarnings(MergeEqual(Ordered(ps, policy)), policy)
    + if policy.monotonic then RaiseWarnings(Lowered(ps, policy)) else []
  }

  // ---------------------------------------------------------------- the object

  lemma {:induction false} PassLengths(ps: seq<FanPoint>, policy: CurvePolicy)
    ensures |ClampAll(ps, policy)| == |FloorAll(ps, policy)| == |RaiseAll(ps)| == |ps|
  {
    if ps != [] { PassLengths(ps[..|ps| - 1], policy); }
  }

  lemma PrefixStep(ps: seq<FanPoint>, i: nat)
    requires i < |ps|
    ensures var next := ps[..i + 1]; next != [] && next[..|next| - 1] == ps[..i] && next[|next| - 1] == ps[i]
  {
  }

  /** Writing point `i` of an array whose first `i` points are done. */
  lemma Advance(done: seq<FanPoint>, ps: seq<FanPoint>, i: nat, q: FanPoint)
    requires |done| == i < |ps|
    ensures (done + ps[i..])[i] == ps[i]
    ensures (done + ps[i..])[i := q] == (done + [q]) + ps[i + 1..]
  {
  }

  lemma ClampStep(ps: seq<FanPoint>, i: nat, policy: CurvePolicy)
    requires i < |ps|
    ensures var q := ClampPoint(ps[i], policy);
      && |ClampAll(ps[..i], policy)| == i
      && ClampAll(ps[..i + 1], policy) == ClampAll(ps[..i], policy) + [q]
      && ClampWarnings(ps[..i + 1], policy)
         == ClampWarnings(ps[..i], policy) + if ps[i] == q then [] else [Clamped(ps[i], q)]
  {
    PassLengths(ps[..i], policy);
    PrefixStep(ps, i);
  }

  lemma FloorStep(ps: seq<FanPoint>, i: nat, policy: CurvePolicy)
    requires i < |ps|
    ensures var p := ps[i];
      && |FloorAll(ps[..i], policy)| == i
      && FloorAll(ps[..i + 1], policy) == FloorAll(ps[..i], policy) + [FloorPoint(p, policy)]
      && FloorWarnings(ps[..i + 1], policy) == FloorWarnings(ps[..i], policy)
         + if BelowFloor(p, policy) then [Floored(p.temp, p.duty, policy.floor.value.duty)] else []
  {
    PassLengths(ps[..i], policy);
    PrefixStep(ps, i);
  }

  lemma RaiseStep(ps: seq<FanPoint>, i: nat)
    requires 0 < i < |ps|
    ensures var done, p := RaiseAll(ps[..i]), ps[i];
      && |done| == i
      && RaiseAll(ps[..i + 1]) == done + [if p.duty < done[i - 1].duty then p.(duty := done[i - 1].duty) else p]
      && RaiseWarnings(ps[..i + 1]) == RaiseWarnings(ps[..i])
         + if p.duty < done[i - 1].duty then [Raised(p.temp, p.duty, done[i - 1].duty)] else []
  {
    PassLengths(ps[..i], DEFAULT_POLICY);
    PrefixStep(ps, i);
  }

  lemma RaiseFirst(ps: seq<FanPoint>)
    requires ps != []
    ensures RaiseAll(ps[..1]) == [ps[0]] && RaiseWarnings(ps[..1]) == []
  {
    assert ps[..1][..0] == [];
  }

  lemma WarningsOf(ps: seq<FanPoint>, policy: CurvePolicy, w1: seq<Warning>, w2: seq<Warning>,
                   w3: seq<Warning>, w4: seq<Warning>, w5: seq<Warning>)
    requires w1 == ClampWarnings(ps, policy)
    requires w2 == if Ordered(ps, policy) != ClampAll(ps, policy) then [Sorted] else []
    requires w3 == MergeWarnings(Ordered(ps, policy))
    requires w4 == FloorWarnings(MergeEqual(Ordered(ps, policy)), policy)
    requires w5 == if policy.monotonic then RaiseWarnings(Lowered(ps, policy)) else []
    ensures w1 + w2 + w3 + w4 + w5 == Warnings(ps, policy)
  {
  }

  class Curve {
    var points: seq<FanPoint>

    constructor (points: seq<FanPoint>)
      ensures this.points == points
    {
      this.points := points;
    }

    method ClampPoints(policy: CurvePolicy) returns (w: seq<Warning>)
      modifies this
      ensures points == ClampAll(old(points), policy) && w == ClampWarnings(old(points), policy)
    {
      ghost var ps := points;
      w := [];
      var i := 0;
      while i < |points|
        invariant 0 <= i <= |points| == |ps|
        invariant points == ClampAll(ps[..i], policy) + ps[i..]
        invariant w == ClampWarnings(ps[..i], policy)
      {
        ClampStep(ps, i, policy);
        var was := points[i];
        var now := ClampPoint(was, policy);
        Advance(ClampAll(ps[..i], policy), ps, i, now);
        points := points[i := now];
        if now != was {
          w := w + [Clamped(was, now)];
        }
        i := i + 1;
      }
      assert ps[..i] == ps;
    }

    method MergePoints() returns (w: seq<Warning>)
      modifies this
      ensures points == MergeEqual(old(points)) && w == MergeWarnings(old(points))
    {
      ghost var ps := points;
      var deduped: seq<FanPoint> := [];
      w := [];
      var i := 0;
      while i < |points|
        invariant 0 <= i <= |points| && points == ps
        invariant deduped == MergeEqual(ps[..i])
        invariant w == MergeWarnings(ps[..i])
      {
        assert ps[..i + 1][..i] == ps[..i];
        var p := points[i];
        i := i + 1;
        if deduped != [] && deduped[|deduped| - 1].temp == p.temp {
          if p.duty > deduped[|deduped| - 1].duty {
            deduped := deduped[|deduped| - 1 := deduped[|deduped| - 1].(duty := p.duty)];
          }
          w := w + [Merged(p.temp)];
          continue;
        }
        deduped := deduped + [p];
      }
      assert ps[..i] == ps;
      points := deduped;
    }

    method RaiseToFloor(policy: CurvePolicy) returns (w: seq<Warning>)
      modifies this
      ensures points == FloorAll(old(points), policy) && w == FloorWarnings(old(points), policy)
    {
      ghost var ps := points;
      w := [];
      var i := 0;
      while i < |points|
        invariant 0 <= i <= |points| == |ps|
        invariant points == FloorAll(ps[..i], policy) + ps[i..]
        invariant w == FloorWarnings(ps[..i], policy)
      {
        FloorStep(ps, i, policy);
        var p := points[i];
        Advance(FloorAll(ps[..i], policy), ps, i, FloorPoint(p, policy));
        if policy.floor.Some? && p.temp >= policy.floor.value.temp && p.duty < policy.floor.value.duty {
          points := points[i := p.(duty := policy.floor.value.duty)];
          w := w + [Floored(p.temp, p.duty, policy.floor.value.duty)];
        }
        i := i + 1;
      }
      assert ps[..i] == ps;
    }

    method RaiseToMonotonic() returns (w: seq<Warning>)
      modifies this
      ensures points == RaiseAll(old(points)) && w == RaiseWarnings(old(points))
    {
      ghost var ps := points;
      w := [];
      if |points| < 2 {
        if ps != [] {
          RaiseFirst(ps);
          assert ps[..1] == ps;
        }
        return;
      }
      var last := points[0].duty;
      var i := 1;
      RaiseFirst(ps);
      while i < |points|
        invariant 1 <= i <= |points| == |ps|
        invariant points == RaiseAll(ps[..i]) + ps[i..]
        invariant |RaiseAll(ps[..i])| == i && last == RaiseAll(ps[..i])[i - 1].duty
        invariant w == RaiseWarnings(ps[..i])
      {
        RaiseStep(ps, i);
        var p := points[i];
        Advance(RaiseAll(ps[..i]), ps, i, if p.duty < last then p.(duty := last) else p);
        if p.duty < last {
          points := points[i := p.(duty := last)];
          w := w + [Raised(p.temp, p.duty, last)];
        }
        last := points[i].duty;
        i := i + 1;
      }
      assert ps[..i] == ps;
    }

    method Sanitize(policy: CurvePolicy) returns (r: Option<seq<Warning>>)
      requires points != [] ==> Clampable(policy)
      modifies this
      ensures r.None? <==> old(points) == []
      ensures r.None? ==> points == old(points)
      ensures r.Some? ==> points == Sanitized(old(points), policy) && r.value == Warnings(old(points), policy)
    {
      if points == [] {
        return None;
      }
      ghost var ps := points;
      var w := ClampPoints(policy);
      var sorted := SortByTemp(points);
      ghost var w1, w2 := w, if sorted != points then [Sorted] else [];
      if sorted != points {
        points := sorted;
        w := w + [Sorted];
      }
      assert w == w1 + w2;
      var w3 := MergePoints();
      w := w + w3;
      var w4: seq<Warning> := [];
      if policy.floor.Some? {
        w4 := RaiseToFloor(policy);
      } else {
        NoFloor(points, policy);
      }
      w := w + w4;
      var w5: seq<Warning> := [];
      if policy.monotonic {
        w5 := RaiseToMonotonic();
      }
      w := w + w5;
      WarningsOf(ps, policy, w1, w2, w3, w4, w5);
      r := Some(w);
    }
  }

  lemma {:induction false} NoFloor(ps: seq<FanPoint>, policy: CurvePolicy)
    requires policy.floor.None?
    ensures FloorAll(ps, policy) == ps && FloorWarnings(ps, policy) == []
  {
    if ps != [] { NoFloor(ps[..|ps| - 1], policy); }
  }
}
