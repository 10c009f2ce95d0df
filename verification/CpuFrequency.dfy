/** CPU frequency limits: validation against the hardware of all policies, the
    planned write order, and why no policy ever has its minimum above its maximum. */
module CpuFrequency {
  import opened Common
  import opened Text
  import opened CpuStore
  import opened CpuTransaction

  /** One cpufreq policy as it was read; frequencies are in kHz. */
  datatype CpuPolicy = CpuPolicy(path: Path, min: Option<u64>, max: Option<u64>,
                                 infoMin: Option<u64>, infoMax: Option<u64>)

  datatype FreqError =
    | NoEndpoints
    | HardwareMinUnavailable
    | HardwareMaxUnavailable
    | BoundsUnavailable
    | NoLimitGiven
    | MinimumOutsideBounds
    | MaximumOutsideBounds
    | MinimumAboveMaximum
    | NotWritable(path: Path)
    | CurrentUnavailable(path: Path)
    | WouldInvert(path: Path)
    | Transaction(error: TxError)

  datatype Bounds = Bounds(min: u32, max: u32)

  // ---------------------------------------------------------------- bounds

  function KhzToMhz(v: u64): Option<u32> {
    if v / 1000 <= U32_MAX then Some(v / 1000) else None
  }

  function ReportedMin(p: CpuPolicy): Option<u32> {
    if p.infoMin.Some? then KhzToMhz(p.infoMin.value) else None
  }

  function ReportedMax(p: CpuPolicy): Option<u32> {
    if p.infoMax.Some? then KhzToMhz(p.infoMax.value) else None
  }

  /** The largest hardware minimum that any policy reports. */
  function HardwareMin(policies: seq<CpuPolicy>): Option<u32> {
    if policies == [] then None
    else
      var rest, here := HardwareMin(policies[1..]), ReportedMin(policies[0]);
      if rest.None? then here else if here.None? || here.value < rest.value then rest else here
  }

  /** The smallest hardware maximum that any policy reports. */
  function HardwareMax(policies: seq<CpuPolicy>): Option<u32> {
    if policies == [] then None
    else
      var rest, here := HardwareMax(policies[1..]), ReportedMax(policies[0]);
      if rest.None? then here else if here.None? || here.value > rest.value then rest else here
  }

  function NewBounds(min: u32, max: u32): Result<Bounds, FreqError> {
    if min == 0 || max == 0 || min > max then Err(BoundsUnavailable) else Ok(Bounds(min, max))
  }

  function ValidateLimits(min: Option<u32>, max: Option<u32>, b: Bounds): Result<(), FreqError> {
    if min.None? && max.None? then Err(NoLimitGiven)
    else if min.Some? && !(b.min <= min.value <= b.max) then Err(MinimumOutsideBounds)
    else if max.Some? && !(b.min <= max.value <= b.max) then Err(MaximumOutsideBounds)
    else if min.Some? && max.Some? && min.value > max.value then Err(MinimumAboveMaximum)
    else Ok(())
  }

  function CheckLimits(policies: seq<CpuPolicy>, min: Option<u32>, max: Option<u32>): Result<(), FreqError> {
    if policies == [] then Err(NoEndpoints)
    else if HardwareMin(policies).None? then Err(HardwareMinUnavailable)
    else if HardwareMax(policies).None? then Err(HardwareMaxUnavailable)
    else
      match NewBounds(HardwareMin(policies).value, HardwareMax(policies).value)
      case Err(e) => Err(e)
      case Ok(b) => ValidateLimits(min, max, b)
  }

  lemma LimitFaults(policies: seq<CpuPolicy>, min: Option<u32>, max: Option<u32>)
    ensures CheckLimits(policies, min, max).Err? ==>
      var e := CheckLimits(policies, min, max).error; !e.CurrentUnavailable? && !e.WouldInvert? && !e.Transaction?
  {
  }

  lemma {:induction false} HardwareExtremes(policies: seq<CpuPolicy>)
    ensures forall p | p in policies && ReportedMin(p).Some? ::
      HardwareMin(policies).Some? && ReportedMin(p).value <= HardwareMin(policies).value
    ensures forall p | p in policies && ReportedMax(p).Some? ::
      HardwareMax(policies).Some? && HardwareMax(policies).value <= ReportedMax(p).value
    ensures HardwareMin(policies).Some? ==> exists p :: p in policies && ReportedMin(p) == HardwareMin(policies)
    ensures HardwareMax(policies).Some? ==> exists p :: p in policies && ReportedMax(p) == HardwareMax(policies)
  {
    if policies != [] {
      HardwareExtremes(policies[1..]);
      assert forall p | p in policies :: p == policies[0] || p in policies[1..];
      assert policies[0] in policies;
    }
  }

  /** A frequency in kHz that was read and whose MHz fit 32 bits. */
  ghost predicate Usable(khz: Option<u64>) {
    khz.Some? && khz.value < 4_294_967_296_000
  }

  /** A limit in MHz is within what every policy reports in kHz, where a lower bound
      counts from its whole MHz on. */
  ghost predicate WithinReported(policies: seq<CpuPolicy>, limit: u32) {
    forall p :: p in policies ==>
      && (Usable(p.infoMin) ==> p.infoMin.value <= limit * 1000 + 999)
      && (Usable(p.infoMax) ==> limit * 1000 <= p.infoMax.value)
  }

  /** Main result: a request is accepted exactly when it gives a limit, some policy
      reports a minimum of at least 1 MHz and some policy a maximum, every given limit
      is within what all policies report, and the limits are not inverted. */
  lemma AcceptedExactly(policies: seq<CpuPolicy>, min: Option<u32>, max: Option<u32>)
    ensures CheckLimits(policies, min, max).Ok? <==>
      && (min.Some? || max.Some?)
      && (exists p :: p in policies && Usable(p.infoMin) && p.infoMin.value >= 1000)
      && (exists p :: p in policies && Usable(p.infoMax))
      && (min.Some? ==> WithinReported(policies, min.value))
      && (max.Some? ==> WithinReported(policies, max.value))
      && (min.Some? && max.Some? ==> min.value <= max.value)
  {
    HardwareExtremes(policies);
    forall p | p in policies
      ensures ReportedMin(p) == if Usable(p.infoMin) then Some(p.infoMin.value / 1000) else None
      ensures ReportedMax(p) == if Usable(p.infoMax) then Some(p.infoMax.value / 1000) else None
    {
    }
    if HardwareMin(policies).Some? && HardwareMax(policies).Some? {
      var low, high := HardwareMin(policies).value, HardwareMax(policies).value;
      forall limit: u32 ensures WithinReported(policies, limit) <==> low <= limit <= high {
        WithinCommon(policies, low, high, limit);
      }
    }
  }

  lemma WithinCommon(policies: seq<CpuPolicy>, low: u32, high: u32, limit: u32)
    requires HardwareMin(policies) == Some(low) && HardwareMax(policies) == Some(high)
    ensures WithinReported(policies, limit) <==> low <= limit <= high
  {
    HardwareExtremes(policies);
    var p :| p in policies && ReportedMin(p) == Some(low);
    var q :| q in policies && ReportedMax(q) == Some(high);
    if WithinReported(policies, limit) {
      assert Usable(p.infoMin) && Usable(q.infoMax);
    }
  }

  /** Main result: an accepted limit is, for every policy that reports one, at most
      the hardware maximum and less than 1 MHz below the hardware minimum. */
  lemma AcceptedWithinHardware(policies: seq<CpuPolicy>, min: Option<u32>, max: Option<u32>, limit: u32, p: CpuPolicy)
    requires CheckLimits(policies, min, max).Ok? && p in policies && (min == Some(limit) || max == Some(limit))
    ensures p.infoMax.Some? ==> limit * 1000 <= p.infoMax.value
    ensures ReportedMin(p).Some? ==> p.infoMin.value <= limit * 1000 + 999
  {
    HardwareExtremes(policies);
  }

  lemma BelowReportedMaximum(policies: seq<CpuPolicy>, min: Option<u32>, max: Option<u32>, p: CpuPolicy)
    requires CheckLimits(policies, min, max).Ok? && p in policies && p.infoMax.Some?
    ensures min.Some? ==> 1000 * min.value <= p.infoMax.value
    ensures max.Some? ==> 1000 * max.value <= p.infoMax.value
  {
    if min.Some? { AcceptedWithinHardware(policies, min, max, min.value, p); }
    if max.Some? { AcceptedWithinHardware(policies, min, max, max.value, p); }
  }

  /** An explicit limit of a request that is accepted. */
  ghost predicate AcceptedLimit(policies: seq<CpuPolicy>, limit: u32) {
    exists min, max :: CheckLimits(policies, min, max).Ok? && (min == Some(limit) || max == Some(limit))
  }

  /** Because hardware bounds are rounded down to MHz, every explicit limit that is
      accepted, in whatever request, is at or above the hardware minimum of `p`
      exactly when the common lower bound is. */
  lemma LimitsReachHardwareMinimum(policies: seq<CpuPolicy>, p: CpuPolicy)
    requires p in policies && ReportedMin(p).Some?
    requires HardwareMax(policies).Some?
      && NewBounds(HardwareMin(policies).GetOr(0), HardwareMax(policies).value).Ok?
    ensures (forall limit: u32 :: AcceptedLimit(policies, limit) ==> p.infoMin.value <= limit * 1000)
            <==> p.infoMin.value <= HardwareMin(policies).GetOr(0) * 1000
  {
    HardwareExtremes(policies);
    var common := HardwareMin(policies).value;
    assert CheckLimits(policies, Some(common), None).Ok? && AcceptedLimit(policies, common);
    forall limit: u32 | AcceptedLimit(policies, limit) ensures common <= limit {
      var min, max :| CheckLimits(policies, min, max).Ok? && (min == Some(limit) || max == Some(limit));
    }
  }

  lemma OnePolicy(p: CpuPolicy)
    ensures HardwareMin([p]) == ReportedMin(p) && HardwareMax([p]) == ReportedMax(p)
  {
    assert [p][1..] == [];
    assert HardwareMin([]) == None && HardwareMax([]) == None;
  }

  /** A policy whose own minimum is not a whole MHz: 800 MHz is accepted although
      the hardware starts at 800.5 MHz. */
  lemma RoundedMinimumIsAccepted()
    ensures var p := CpuPolicy("policy0", Some(800_500), Some(4_200_000), Some(800_500), Some(4_200_000));
      CheckLimits([p], Some(800), None).Ok? && 800 * 1000 < p.infoMin.value
  {
    var p := CpuPolicy("policy0", Some(800_500), Some(4_200_000), Some(800_500), Some(4_200_000));
    assert ReportedMin(p) == Some(800) && ReportedMax(p) == Some(4_200);
    OnePolicy(p);
  }

  // ---------------------------------------------------------------- the plan

  function InKhz(limit: Option<u32>, current: u64): u64 {
    if limit.Some? then limit.value * 1000 else current
  }

  /** The range a policy is asked to have; a limit that is not given keeps its value. */
  function EffectiveRange(min: Option<u32>, max: Option<u32>, p: CpuPolicy): Result<(u64, u64), FreqError> {
    if p.min.None? || p.max.None? then Err(CurrentUnavailable(p.path))
    else
      var low, high := InKhz(min, p.min.value), InKhz(max, p.max.value);
      if low > high then Err(WouldInvert(p.path)) else Ok((low, high))
  }

  function MinPath(p: CpuPolicy): Path { p.path + "/scaling_min_freq" }

  function MaxPath(p: CpuPolicy): Path { p.path + "/scaling_max_freq" }

  /** The two writes of one policy; the minimum goes first only when the new
      maximum lies below the current minimum. */
  function PolicyWrites(p: CpuPolicy, range: (u64, u64)): (w: seq<CpuWrite>)
    requires p.min.Some? && p.max.Some?
    ensures |w| == 2
  {
    var minWrite := CpuWrite(MinPath(p), Some(Decimal(p.min.value)), Decimal(range.0));
    var maxWrite := CpuWrite(MaxPath(p), Some(Decimal(p.max.value)), Decimal(range.1));
    if range.1 < p.min.value then [minWrite, maxWrite] else [maxWrite, minWrite]
  }

  ghost predicate Plannable(policies: seq<CpuPolicy>, min: Option<u32>, max: Option<u32>) {
    forall j | 0 <= j < |policies| :: EffectiveRange(min, max, policies[j]).Ok?
  }

  /** Writes `2j` and `2j + 1` are those of policy `j`. */
  ghost predicate IsPlan(writes: seq<CpuWrite>, policies: seq<CpuPolicy>, min: Option<u32>, max: Option<u32>) {
    && Plannable(policies, min, max)
    && |writes| == 2 * |policies|
    && forall j | 0 <= j < |policies| ::
         var w := PolicyWrites(policies[j], EffectiveRange(min, max, policies[j]).value);
         writes[2 * j] == w[0] && writes[2 * j + 1] == w[1]
  }

  /** The range that a request asks of a policy is known and not inverted. */
  ghost predicate KeepsOrder(min: Option<u32>, max: Option<u32>, p: CpuPolicy) {
    && p.min.Some? && p.max.Some?
    && (if min.Some? then 1000 * min.value else p.min.value) <= (if max.Some? then 1000 * max.value else p.max.value)
  }

  ghost predicate AllKeepOrder(min: Option<u32>, max: Option<u32>, policies: seq<CpuPolicy>) {
    forall j | 0 <= j < |policies| :: KeepsOrder(min, max, policies[j])
  }

  /** Policy `k` is the first whose range is not known or inverted, and is named. */
  ghost predicate FirstUnplanned(min: Option<u32>, max: Option<u32>, policies: seq<CpuPolicy>, k: nat, e: FreqError) {
    && k < |policies| && AllKeepOrder(min, max, policies[..k]) && !KeepsOrder(min, max, policies[k])
    && e == if policies[k].min.Some? && policies[k].max.Some?
            then WouldInvert(policies[k].path) else CurrentUnavailable(policies[k].path)
  }

  lemma PlannableIsOrdered(policies: seq<CpuPolicy>, min: Option<u32>, max: Option<u32>)
    ensures Plannable(policies, min, max) <==> AllKeepOrder(min, max, policies)
  {
    assert forall j | 0 <= j < |policies| ::
      EffectiveRange(min, max, policies[j]).Ok? <==> KeepsOrder(min, max, policies[j]);
  }

  method PlanWrites(policies: seq<CpuPolicy>, min: Option<u32>, max: Option<u32>)
    returns (r: Result<seq<CpuWrite>, FreqError>)
    ensures r.Ok? ==> IsPlan(r.value, policies, min, max)
    ensures r.Ok? <==> AllKeepOrder(min, max, policies)
    ensures r.Err? ==> exists k :: FirstUnplanned(min, max, policies, k, r.error)
  {
    var writes: seq<CpuWrite> := [];
    var k := 0;
    while k < |policies|
      invariant 0 <= k <= |policies|
      invariant Plannable(policies[..k], min, max)
      invariant IsPlan(writes, policies[..k], min, max)
    {
      var p := policies[k];
      var range := EffectiveRange(min, max, p);
      if range.Err? {
        PlannableIsOrdered(policies[..k], min, max);
        assert FirstUnplanned(min, max, policies, k, range.error);
        return Err(range.error);
      }
      assert policies[..k + 1] == policies[..k] + [p];
      PlanExtends(writes, policies[..k], min, max, p);
      writes := writes + PolicyWrites(p, range.value);
      k := k + 1;
    }
    assert policies[..k] == policies;
    PlannableIsOrdered(policies, min, max);
    r := Ok(writes);
  }

  lemma PlanExtends(writes: seq<CpuWrite>, policies: seq<CpuPolicy>, min: Option<u32>, max: Option<u32>, p: CpuPolicy)
    requires IsPlan(writes, policies, min, max) && EffectiveRange(min, max, p).Ok?
    ensures IsPlan(writes + PolicyWrites(p, EffectiveRange(min, max, p).value), policies + [p], min, max)
  {
  }

  // ---------------------------------------------------------------- safety of the plan

  /** Both limits of the policy can be read as numbers, the minimum not above the maximum. */
  ghost predicate Ordered(contents: map<Path, string>, p: CpuPolicy) {
    && MinPath(p) in contents && MaxPath(p) in contents
    && var low, high := ParseDecimal(contents[MinPath(p)]), ParseDecimal(contents[MaxPath(p)]);
    low.Some? && high.Some? && low.value <= high.value
  }

  ghost predicate DistinctPolicies(policies: seq<CpuPolicy>) {
    forall i, j :: 0 <= i < j < |policies| ==> policies[i].path != policies[j].path
  }

  lemma LimitPathsDiffer(p: CpuPolicy, q: CpuPolicy)
    ensures MinPath(p) != MaxPath(q)
    ensures p.path != q.path ==> MinPath(p) != MinPath(q) && MaxPath(p) != MaxPath(q)
  {
    var a, b := MinPath(p), MaxPath(q);
    assert a[|a| - 7] == 'i' && b[|b| - 7] == 'a';
    assert a[..|a| - 17] == p.path && MinPath(q)[..|MinPath(q)| - 17] == q.path;
    assert b[..|b| - 17] == q.path && MaxPath(p)[..|MaxPath(p)| - 17] == p.path;
  }

  lemma PlanPath(writes: seq<CpuWrite>, policies: seq<CpuPolicy>, min: Option<u32>, max: Option<u32>, i: nat)
    requires IsPlan(writes, policies, min, max) && i < |writes|
    ensures writes[i].path == MinPath(policies[i / 2]) || writes[i].path == MaxPath(policies[i / 2])
    ensures i % 2 == 1 ==> writes[i].path != writes[i - 1].path
  {
    var j := i / 2;
    assert i == 2 * j || i == 2 * j + 1;
    PolicyPaths(policies[j], EffectiveRange(min, max, policies[j]).value);
  }

  lemma PolicyPaths(p: CpuPolicy, range: (u64, u64))
    requires p.min.Some? && p.max.Some?
    ensures var w := PolicyWrites(p, range);
      && {w[0].path, w[1].path} == {MinPath(p), MaxPath(p)} && w[0].path != w[1].path
      && Tight(w[0].value) && Tight(w[1].value)
  {
    hide MinPath, MaxPath;
    LimitPathsDiffer(p, p);
    DecimalIsTight(range.0);
    DecimalIsTight(range.1);
  }

  lemma PlanIsTight(writes: seq<CpuWrite>, policies: seq<CpuPolicy>, min: Option<u32>, max: Option<u32>)
    requires IsPlan(writes, policies, min, max)
    ensures AllTight(writes)
  {
    hide Tight;
    forall op | op in writes ensures Tight(op.value) {
      var i :| 0 <= i < |writes| && writes[i] == op;
      var j := i / 2;
      assert i == 2 * j || i == 2 * j + 1;
      PolicyPaths(policies[j], EffectiveRange(min, max, policies[j]).value);
    }
  }

  lemma PlanIsDistinct(writes: seq<CpuWrite>, policies: seq<CpuPolicy>, min: Option<u32>, max: Option<u32>)
    requires IsPlan(writes, policies, min, max) && DistinctPolicies(policies)
    ensures DistinctPaths(writes) && AllTight(writes)
  {
    forall i, j | 0 <= i < j < |writes| ensures writes[i].path != writes[j].path {
      PlanPath(writes, policies, min, max, i);
      PlanPath(writes, policies, min, max, j);
      LimitPathsDiffer(policies[i / 2], policies[j / 2]);
      LimitPathsDiffer(policies[j / 2], policies[i / 2]);
    }
    PlanIsTight(writes, policies, min, max);
  }

  /** At stage `m` the path of write `i` holds its new value exactly from `i + 1` on. */
  lemma ContentAt(f: Files, writes: seq<CpuWrite>, m: nat, i: nat)
    requires DistinctPaths(writes) && AllTight(writes) && AllPresent(f, writes)
    requires m <= |writes| && i < |writes|
    ensures writes[i].path in Staged(f, writes, m)
    ensures Staged(f, writes, m)[writes[i].path] == if i < m then writes[i].value else Trim(f[writes[i].path])
  {
    assert writes[i] in writes;
    if i < m {
      StageHoldsTarget(f, writes, m, i);
    } else {
      AttemptedPaths(f, writes, m);
      CarriedElsewhere(f, writes, m, writes[i].path);
    }
  }

  /** With the order of the writes that is chosen for a policy, no combination of
      finished writes leaves the minimum above the maximum. */
  lemma AnyStageIsOrdered(min: u64, max: u64, low: u64, high: u64, minDone: bool, maxDone: bool)
    requires min <= max && low <= high
    requires if high < min then maxDone ==> minDone else minDone ==> maxDone
    ensures (if minDone then low else min) <= (if maxDone then high else max)
  {
  }

  /** What stage `m` holds for policy `j`: each limit is the planned or the current one. */
  lemma StageLimits(f: Files, writes: seq<CpuWrite>, policies: seq<CpuPolicy>,
                    min: Option<u32>, max: Option<u32>, m: nat, j: nat) returns (minDone: bool, maxDone: bool)
    requires IsPlan(writes, policies, min, max) && DistinctPolicies(policies) && ExpectationsMet(f, writes)
    requires m <= |writes| && j < |policies|
    ensures var p, range, now := policies[j], EffectiveRange(min, max, policies[j]).value, Staged(f, writes, m);
      && MinPath(p) in now && now[MinPath(p)] == Decimal(if minDone then range.0 else p.min.value)
      && MaxPath(p) in now && now[MaxPath(p)] == Decimal(if maxDone then range.1 else p.max.value)
      && MinPath(p) in f && Trim(f[MinPath(p)]) == Decimal(p.min.value)
      && MaxPath(p) in f && Trim(f[MaxPath(p)]) == Decimal(p.max.value)
      && if range.1 < p.min.value then maxDone ==> minDone else minDone ==> maxDone
  {
    hide Staged, Trim, Decimal, MinPath, MaxPath;
    var p := policies[j];
    var range := EffectiveRange(min, max, p).value;
    PlanIsDistinct(writes, policies, min, max);
    assert writes[2 * j] in writes && writes[2 * j + 1] in writes;
    assert AllPresent(f, writes) by {
      forall i | 0 <= i < |writes| ensures writes[i].path in f { assert writes[i] in writes; }
    }
    ContentAt(f, writes, m, 2 * j);
    ContentAt(f, writes, m, 2 * j + 1);
    if range.1 < p.min.value {
      minDone, maxDone := 2 * j < m, 2 * j + 1 < m;
    } else {
      minDone, maxDone := 2 * j + 1 < m, 2 * j < m;
    }
  }

  /** Main result: at every stage of the plan every policy stays ordered. */
  lemma StagesStayOrdered(f: Files, writes: seq<CpuWrite>, policies: seq<CpuPolicy>,
                          min: Option<u32>, max: Option<u32>, m: nat, j: nat)
    requires IsPlan(writes, policies, min, max) && DistinctPolicies(policies) && ExpectationsMet(f, writes)
    requires m <= |writes| && j < |policies| && Ordered(Contents(f), policies[j])
    ensures Ordered(Staged(f, writes, m), policies[j])
  {
    hide Staged, Trim, Decimal, ParseDecimal, MinPath, MaxPath;
    var p := policies[j];
    var range := EffectiveRange(min, max, p).value;
    var minDone, maxDone := StageLimits(f, writes, policies, min, max, m, j);
    DecimalRoundTrip(p.min.value);
    DecimalRoundTrip(p.max.value);
    DecimalRoundTrip(range.0);
    DecimalRoundTrip(range.1);
    AnyStageIsOrdered(p.min.value, p.max.value, range.0, range.1, minDone, maxDone);
  }

  // ---------------------------------------------------------------- the operation

  /** The policy is ordered in everything a batch left behind, except after a
      rollback write that failed. */
  ghost predicate AlwaysOrdered(attempts: seq<Attempt>, base: nat, p: CpuPolicy) {
    base <= |attempts| &&
    forall q | base <= q < |attempts| :: UndoneCleanly(attempts, base, q) ==> Ordered(Contents(attempts[q].after), p)
  }

  /** The limits of the policy still are what was read before planning. */
  ghost predicate Unchanged(f: Files, p: CpuPolicy) {
    && p.min.Some? && MinPath(p) in f && Trim(f[MinPath(p)]) == Decimal(p.min.value)
    && p.max.Some? && MaxPath(p) in f && Trim(f[MaxPath(p)]) == Decimal(p.max.value)
  }

  ghost predicate AllUnchanged(f: Files, policies: seq<CpuPolicy>) {
    forall j | 0 <= j < |policies| :: Unchanged(f, policies[j])
  }

  lemma UnchangedMeetsExpectations(f: Files, writes: seq<CpuWrite>, policies: seq<CpuPolicy>,
                                   min: Option<u32>, max: Option<u32>)
    requires IsPlan(writes, policies, min, max) && AllUnchanged(f, policies)
    ensures ExpectationsMet(f, writes)
  {
    forall op | op in writes
      ensures op.path in f && (op.expected.Some? ==> Trim(f[op.path]) == op.expected.value)
    {
      var i :| 0 <= i < |writes| && writes[i] == op;
      assert Unchanged(f, policies[i / 2]);
      assert i == 2 * (i / 2) || i == 2 * (i / 2) + 1;
    }
  }

  /** Both limits of every policy exist and may be written. */
  method PreflightWritable(dev: ControlFiles, policies: seq<CpuPolicy>) returns (r: Result<(), FreqError>)
    modifies dev`failures
    ensures dev.failures >= old(dev.failures)
    ensures r.Ok? ==> forall j :: 0 <= j < |policies| ==>
      MinPath(policies[j]) in dev.files && MaxPath(policies[j]) in dev.files
    ensures r.Err? ==> r.error.NotWritable? && (r.error.path !in dev.files || dev.failures > old(dev.failures))
    ensures r.Err? ==>
      exists j :: 0 <= j < |policies| && r.error.path in {MinPath(policies[j]), MaxPath(policies[j])}
  {
    hide MinPath, MaxPath;
    for j := 0 to |policies|
      invariant dev.failures >= old(dev.failures)
      invariant forall i :: 0 <= i < j ==> MinPath(policies[i]) in dev.files && MaxPath(policies[i]) in dev.files
    {
      var min := dev.IsWritable(MinPath(policies[j]));
      if !min {
        return Err(NotWritable(MinPath(policies[j])));
      }
      var max := dev.IsWritable(MaxPath(policies[j]));
      if !max {
        return Err(NotWritable(MaxPath(policies[j])));
      }
    }
    r := Ok(());
  }

  /** The control file can be read as this number. */
  ghost predicate Reads(f: Files, path: Path, khz: nat) {
    path in f && ParseDecimal(Trim(f[path])) == Some(khz)
  }

  lemma WrittenReads(f: Files, path: Path, khz: nat)
    requires path in f && Trim(f[path]) == Decimal(khz)
    ensures Reads(f, path, khz)
  {
    DecimalRoundTrip(khz);
  }

  /** Sets the frequency limits of all policies, or of none of them. */
  method SetFreqLimits(dev: ControlFiles, policies: seq<CpuPolicy>, min: Option<u32>, max: Option<u32>)
    returns (r: Result<(), FreqError>)
    requires DistinctPolicies(policies)
    modifies dev
    ensures old(dev.attempts) <= dev.attempts
    ensures r.Ok? ==> CheckLimits(policies, min, max).Ok? && AllKeepOrder(min, max, policies)
    ensures r.Ok? ==> forall j | 0 <= j < |policies| ::
      var p := policies[j];
      && p.min.Some? && p.max.Some?
      && Reads(dev.files, p.path + "/scaling_min_freq", if min.Some? then 1000 * min.value else p.min.value)
      && Reads(dev.files, p.path + "/scaling_max_freq", if max.Some? then 1000 * max.value else p.max.value)
    ensures r.Ok? ==> forall j | 0 <= j < |policies| && policies[j].infoMax.Some? ::
      && (min.Some? ==> 1000 * min.value <= policies[j].infoMax.value)
      && (max.Some? ==> 1000 * max.value <= policies[j].infoMax.value)
    ensures CheckLimits(policies, min, max).Err? ==> r == Err(CheckLimits(policies, min, max).error)
    ensures r.Err? && (r.error.CurrentUnavailable? || r.error.WouldInvert?) ==>
      exists k :: FirstUnplanned(min, max, policies, k, r.error)
    ensures r.Err? && (!r.error.Transaction? || BeforeWriting(r.error.error)) ==>
      dev.files == old(dev.files) && dev.attempts == old(dev.attempts)
    ensures r.Err? && r.error.Transaction? && !BeforeWriting(r.error.error) ==>
      RolledBack(old(dev.files), dev.files, r.error.error)
      && NamesFailures(dev.attempts, |old(dev.attempts)|, r.error.error)
    ensures r.Err? && UndoneCleanly(dev.attempts, |old(dev.attempts)|, |dev.attempts|) ==>
      AllRestored(old(dev.files), dev.files)
    ensures CheckLimits(policies, min, max).Ok? && AllKeepOrder(min, max, policies)
            && AllUnchanged(old(dev.files), policies) ==>
              r.Ok? || dev.failures > old(dev.failures)
    ensures forall j | 0 <= j < |policies| && Ordered(Contents(old(dev.files)), policies[j]) ::
      AlwaysOrdered(dev.attempts, |old(dev.attempts)|, policies[j])
  {
    hide NamesFailures, RolledBack, FailedUndos, MinPath, MaxPath, Reads;
    hide CheckLimits, AllKeepOrder, IsPlan, Ordered;
    LimitFaults(policies, min, max);
    ghost var f, base := dev.files, |dev.attempts|;
    var check := CheckLimits(policies, min, max);
    if check.Err? {
      return Err(check.error);
    }
    var preflight := PreflightWritable(dev, policies);
    if preflight.Err? {
      if AllUnchanged(f, policies) {
        var j :| 0 <= j < |policies| && preflight.error.path in {MinPath(policies[j]), MaxPath(policies[j])};
        assert Unchanged(f, policies[j]);
      }
      return Err(preflight.error);
    }
    var plan := PlanWrites(policies, min, max);
    if plan.Err? {
      return Err(plan.error);
    }
    var writes := plan.value;
    PlanIsDistinct(writes, policies, min, max);
    if AllUnchanged(f, policies) {
      UnchangedMeetsExpectations(f, writes, policies, min, max);
      assert AllPresent(f, writes) by {
        forall i | 0 <= i < |writes| ensures writes[i].path in f { assert writes[i] in writes; }
      }
      DistinctRetains(f, writes);
    }
    var applied := ApplyTransactionalWrites(dev, writes);
    if dev.attempts != old(dev.attempts) {
      PlanStaysOrdered(f, writes, policies, min, max, base, dev.attempts);
    }
    if applied.Err? {
      return Err(Transaction(applied.error));
    }
    PlanTargets(writes, policies, min, max, dev.files);
    forall j | 0 <= j < |policies| && policies[j].infoMax.Some?
      ensures min.Some? ==> 1000 * min.value <= policies[j].infoMax.value
      ensures max.Some? ==> 1000 * max.value <= policies[j].infoMax.value
    {
      BelowReportedMaximum(policies, min, max, policies[j]);
    }
    r := Ok(());
  }

  lemma PlanStaysOrdered(f: Files, writes: seq<CpuWrite>, policies: seq<CpuPolicy>,
                         min: Option<u32>, max: Option<u32>, base: nat, attempts: seq<Attempt>)
    requires IsPlan(writes, policies, min, max) && DistinctPolicies(policies) && ExpectationsMet(f, writes)
    requires StagesOnly(f, writes, base, attempts)
    ensures forall j | 0 <= j < |policies| && Ordered(Contents(f), policies[j]) ::
      AlwaysOrdered(attempts, base, policies[j])
  {
    forall j, q | 0 <= j < |policies| && Ordered(Contents(f), policies[j])
                  && base <= q < |attempts| && UndoneCleanly(attempts, base, q)
      ensures Ordered(Contents(attempts[q].after), policies[j])
    {
      var m: nat :| m <= |writes| && Contents(attempts[q].after) == Staged(f, writes, m);
      StagesStayOrdered(f, writes, policies, min, max, m, j);
    }
  }

  lemma PlanTargets(writes: seq<CpuWrite>, policies: seq<CpuPolicy>, min: Option<u32>, max: Option<u32>, now: Files)
    requires IsPlan(writes, policies, min, max) && DistinctPaths(writes) && AllHold(now, Targets(writes))
    ensures forall j | 0 <= j < |policies| ::
      var p := policies[j];
      && p.min.Some? && p.max.Some?
      && Reads(now, p.path + "/scaling_min_freq", if min.Some? then 1000 * min.value else p.min.value)
      && Reads(now, p.path + "/scaling_max_freq", if max.Some? then 1000 * max.value else p.max.value)
  {
    hide Reads, Decimal, Trim;
    forall j | 0 <= j < |policies|
      ensures var p := policies[j];
        && p.min.Some? && p.max.Some?
        && Reads(now, p.path + "/scaling_min_freq", if min.Some? then 1000 * min.value else p.min.value)
        && Reads(now, p.path + "/scaling_max_freq", if max.Some? then 1000 * max.value else p.max.value)
    {
      LastRequestWins(writes, 2 * j);
      LastRequestWins(writes, 2 * j + 1);
      assert Holds(now, Targets(writes), writes[2 * j].path);
      assert Holds(now, Targets(writes), writes[2 * j + 1].path);
      var range := EffectiveRange(min, max, policies[j]).value;
      WrittenReads(now, MinPath(policies[j]), range.0);
      WrittenReads(now, MaxPath(policies[j]), range.1);
    }
  }
}
