/** The per-component retry state and its budget over whole logs. */
module Retry {
  import opened Common

  datatype Want = Want(key: string, source: PowerSource, generation: u64)

  datatype RetryFields = RetryFields(
    want: Option<Want>,
    attempts: u8,
    nextAttempt: Option<u64>,
    confirmed: bool,
    failed: bool)

  const FIRST_BACKOFF: u64 := 5_000
  const SECOND_BACKOFF: u64 := 30_000

  function Cleared(): RetryFields {
    RetryFields(None, 0, None, false, false)
  }

  /** Asking for something else forgets everything about the previous want. */
  function Asking(s: RetryFields, want: Want): RetryFields {
    if s.want == Some(want) then s else Cleared().(want := Some(want))
  }

  predicate Ready(s: RetryFields, now: u64) {
    !s.failed && (s.attempts == 0 || (s.nextAttempt.Some? && now >= s.nextAttempt.value))
  }

  function AfterStart(s: RetryFields): RetryFields {
    s.(attempts := Min(Min(s.attempts + 1, 0xFF), 3), nextAttempt := None, confirmed := false)
  }

  function AfterFailure(s: RetryFields, now: u64): RetryFields {
    match s.attempts
    case 1 => s.(nextAttempt := Some(SatAdd(now, FIRST_BACKOFF)))
    case 2 => s.(nextAttempt := Some(SatAdd(now, SECOND_BACKOFF)))
    case _ => s.(nextAttempt := None, confirmed := false, failed := true)
  }

  function AfterSuccess(s: RetryFields): RetryFields {
    s.(nextAttempt := None, confirmed := true, failed := false)
  }

  class ComponentRetryState {
    var desiredKey: Option<string>
    var source: Option<PowerSource>
    var generation: u64
    var attempts: u8
    var nextAttemptBoottimeMs: Option<u64>
    var isConfirmed: bool
    var isFailed: bool

    /** The key and the source are set together. */
    ghost predicate Valid()
      reads this
    {
      desiredKey.Some? == source.Some? && (desiredKey.None? ==> generation == 0)
    }

    ghost function Fields(): RetryFields
      reads this
      requires Valid()
    {
      RetryFields(if desiredKey.None? then None else Some(Want(desiredKey.value, source.value, generation)),
                  attempts, nextAttemptBoottimeMs, isConfirmed, isFailed)
    }

    constructor ()
      ensures Valid() && Fields() == Cleared()
    {
      desiredKey, source, generation, attempts := None, None, 0, 0;
      nextAttemptBoottimeMs, isConfirmed, isFailed := None, false, false;
    }

    method ReadyFor(key: string, from: PowerSource, gen: u64, now: u64) returns (ready: bool)
      requires Valid()
      modifies this
      ensures Valid()
      ensures Fields() == Asking(old(Fields()), Want(key, from, gen))
      ensures ready == Ready(Fields(), now)
    {
      if desiredKey != Some(key) || source != Some(from) || generation != gen {
        desiredKey, source, generation, attempts := Some(key), Some(from), gen, 0;
        nextAttemptBoottimeMs, isConfirmed, isFailed := None, false, false;
      }
      ready := !isFailed
        && (attempts == 0 || (nextAttemptBoottimeMs.Some? && now >= nextAttemptBoottimeMs.value));
    }

    method Started()
      requires Valid()
      modifies this
      ensures Valid() && Fields() == AfterStart(old(Fields()))
    {
      attempts := Min(Min(attempts + 1, 0xFF), 3);
      nextAttemptBoottimeMs := None;
      isConfirmed := false;
    }

    method FailedAt(now: u64)
      requires Valid()
      modifies this
      ensures Valid() && Fields() == AfterFailure(old(Fields()), now)
    {
      match attempts
      case 1 => nextAttemptBoottimeMs := Some(SatAdd(now, FIRST_BACKOFF));
      case 2 => nextAttemptBoottimeMs := Some(SatAdd(now, SECOND_BACKOFF));
      case _ =>
        isConfirmed := false;
        isFailed := true;
        nextAttemptBoottimeMs := None;
    }

    method Confirmed()
      requires Valid()
      modifies this
      ensures Valid() && Fields() == AfterSuccess(old(Fields()))
    {
      nextAttemptBoottimeMs := None;
      isConfirmed := true;
      isFailed := false;
    }

    method Cancel()
      requires Valid()
      modifies this
      ensures Valid() && Fields() == Cleared()
    {
      desiredKey, source, generation, attempts := None, None, 0, 0;
      nextAttemptBoottimeMs, isConfirmed, isFailed := None, false, false;
    }
  }

  // ---------------------------------------------------------------- logs of calls

  /** The calls on one retry state.  A poll need not be followed by a start, and
      the outcome of a start may be reported any time later, or never. */
  datatype Event =
    | Poll(want: Want, now: u64)
    | Begin
    | Fail(at: u64)
    | Succeed
    | Forget

  function StepRetry(s: RetryFields, e: Event): RetryFields {
    match e
    case Poll(want, _) => Asking(s, want)
    case Begin => AfterStart(s)
    case Fail(at) => AfterFailure(s, at)
    case Succeed => AfterSuccess(s)
    case Forget => Cleared()
  }

  ghost function RunRetry(log: seq<Event>, n: nat): RetryFields
    requires n <= |log|
  {
    if n == 0 then Cleared() else StepRetry(RunRetry(log, n - 1), log[n - 1])
  }

  /** The answer of `ready_for` to poll `k`. */
  ghost predicate Answer(log: seq<Event>, k: nat)
    requires k < |log| && log[k].Poll?
  {
    Ready(RunRetry(log, k + 1), log[k].now)
  }

  /** Poll `p` was answered with true, and since then there were at most further
      polls for the same want. */
  ghost predicate ToldAt(log: seq<Event>, p: nat, k: nat)
    requires k <= |log|
  {
    p < k && log[p].Poll? && Answer(log, p)
    && forall j | p < j < k :: log[j].Poll? && log[j].want == log[p].want
  }

  /** Callers start only after a poll that was answered with true. */
  ghost predicate StartsWhenTold(log: seq<Event>) {
    forall k: nat :: k < |log| && log[k].Begin? ==> exists p: nat :: ToldAt(log, p, k)
  }

  // ---------------------------------------------------------------- reading the log

  /** What the last poll asked for, unless it was cancelled since. */
  ghost function WantAt(log: seq<Event>, n: nat): Option<Want>
    requires n <= |log|
  {
    if n == 0 then None
    else
      match log[n - 1]
      case Poll(want, _) => Some(want)
      case Forget => None
      case _ => WantAt(log, n - 1)
  }

  /** Event `k` ends one episode and begins another: a cancellation, or a poll for
      something else. */
  ghost predicate Turns(log: seq<Event>, k: nat)
    requires k < |log|
  {
    log[k].Forget? || (log[k].Poll? && WantAt(log, k) != Some(log[k].want))
  }

  /** The number of starts in the running episode. */
  ghost function Starts(log: seq<Event>, n: nat): nat
    requires n <= |log|
  {
    if n == 0 || Turns(log, n - 1) then 0
    else Starts(log, n - 1) + if log[n - 1].Begin? then 1 else 0
  }

  /** What was reported last since the last start, or since the episode began. */
  ghost function LastReport(log: seq<Event>, n: nat): Option<Event>
    requires n <= |log|
  {
    if n == 0 || Turns(log, n - 1) || log[n - 1].Begin? then None
    else if log[n - 1].Fail? || log[n - 1].Succeed? then Some(log[n - 1])
    else LastReport(log, n - 1)
  }

  function Backoff(starts: nat): u64 {
    if starts == 1 then FIRST_BACKOFF else SECOND_BACKOFF
  }

  /** The wait after the given number of starts is over, or time cannot go further. */
  ghost predicate Waited(starts: nat, from: u64, now: u64) {
    from + (if starts == 1 then 5_000 else 30_000) <= now || now == 0xFFFF_FFFF_FFFF_FFFF
  }

  /** The last confirmation still counts: since then nothing was started, and no failure
      was reported that ends the episode. */
  ghost predicate ConfirmedAt(log: seq<Event>, n: nat)
    requires n <= |log|
  {
    && n > 0 && !Turns(log, n - 1) && !log[n - 1].Begin?
    && (log[n - 1].Succeed?
        || ((log[n - 1].Fail? ==> Starts(log, n - 1) in {1, 2}) && ConfirmedAt(log, n - 1)))
  }

  /** Whether the log allows another start at time `now`: a first one unless a
      failure was reported before it, a second or third one when the last report
      is a failure and its backoff has passed, and never a fourth. */
  ghost predicate MayStart(log: seq<Event>, n: nat, now: u64)
    requires n <= |log|
  {
    var last := LastReport(log, n);
    if Starts(log, n) == 0 then last.None? || last.value.Succeed?
    else Starts(log, n) < 3 && last.Some? && last.value.Fail?
         && Waited(Starts(log, n), last.value.at, now)
  }

  // ---------------------------------------------------------------- refinement

  /** Every field says what the log says. */
  ghost predicate Agrees(log: seq<Event>, n: nat)
    requires n <= |log|
  {
    var s, last := RunRetry(log, n), LastReport(log, n);
    var failure := last.Some? && last.value.Fail?;
    && s.want == WantAt(log, n)
    && s.attempts == Starts(log, n) <= 3
    && s.failed == (failure && Starts(log, n) in {0, 3})
    && s.confirmed == ConfirmedAt(log, n)
    && s.nextAttempt == (if failure && Starts(log, n) in {1, 2}
                         then Some(SatAdd(last.value.at, Backoff(Starts(log, n)))) else None)
  }

  lemma AgreesStep(log: seq<Event>, n: nat)
    requires n < |log| && Agrees(log, n)
    requires log[n].Begin? ==> Starts(log, n) < 3 && !RunRetry(log, n).failed
    ensures Agrees(log, n + 1)
  {
  }

  lemma ReadyIsMayStart(log: seq<Event>, n: nat, now: u64)
    requires n <= |log| && Agrees(log, n)
    ensures Ready(RunRetry(log, n), now) <==> MayStart(log, n, now)
  {
    if LastReport(log, n).Some? { LastReportIsReport(log, n); }
  }

  lemma {:induction false} LastReportIsReport(log: seq<Event>, n: nat)
    requires n <= |log| && LastReport(log, n).Some?
    ensures IsReport(LastReport(log, n).value)
  {
    if !IsReport(log[n - 1]) { LastReportIsReport(log, n - 1); }
  }

  /** Polling again for the same want changes nothing. */
  lemma {:induction false} PollsChangeNothing(log: seq<Event>, p: nat, k: nat)
    requires k <= |log| && ToldAt(log, p, k)
    ensures RunRetry(log, k) == RunRetry(log, p + 1) && WantAt(log, k) == Some(log[p].want)
    ensures Starts(log, k) == Starts(log, p + 1) && LastReport(log, k) == LastReport(log, p + 1)
    ensures RunRetry(log, k).want == Some(log[p].want)
  {
    if k > p + 1 { PollsChangeNothing(log, p, k - 1); }
  }

  lemma {:induction false} AgreesAlways(log: seq<Event>, n: nat)
    requires StartsWhenTold(log) && n <= |log|
    ensures Agrees(log, n)
  {
    if n > 0 {
      AgreesAlways(log, n - 1);
      if log[n - 1].Begin? {
        var p: nat :| ToldAt(log, p, n - 1);
        PollsChangeNothing(log, p, n - 1);
        ReadyIsMayStart(log, n - 1, log[p].now);
      }
      AgreesStep(log, n - 1);
    }
  }

  /** Main result: `ready_for` answers exactly what the log allows, whatever calls
      lie between a poll, a start and the report of its outcome. */
  lemma AnswersFollowLog(log: seq<Event>, k: nat)
    requires StartsWhenTold(log) && k < |log| && log[k].Poll?
    ensures Answer(log, k) <==> MayStart(log, k + 1, log[k].now)
  {
    AgreesAlways(log, k + 1);
    ReadyIsMayStart(log, k + 1, log[k].now);
  }

  // ---------------------------------------------------------------- the budget

  predicate IsReport(e: Event) {
    e.Fail? || e.Succeed?
  }

  /** No new episode begins after event `i` and before event `k`. */
  ghost predicate SameEpisode(log: seq<Event>, i: nat, k: nat)
    requires k <= |log|
  {
    forall j: nat | i < j < k :: !Turns(log, j)
  }

  ghost predicate NoStartAfter(log: seq<Event>, i: nat, k: nat)
    requires k <= |log|
  {
    forall j: nat | i < j < k :: !log[j].Begin?
  }

  ghost predicate NoReportAfter(log: seq<Event>, i: nat, k: nat)
    requires k <= |log|
  {
    forall j: nat | i < j < k :: !IsReport(log[j])
  }

  /** Main result: no episode ever has more than three starts, whatever is reported. */
  lemma AtMostThreeStarts(log: seq<Event>, n: nat)
    requires StartsWhenTold(log) && n <= |log|
    ensures Starts(log, n) <= 3
  {
    AgreesAlways(log, n);
  }

  /** The last start of an episode that has one. */
  lemma {:induction false} LastStart(log: seq<Event>, n: nat) returns (i: nat)
    requires n <= |log| && Starts(log, n) > 0
    ensures i < n && log[i].Begin? && SameEpisode(log, i, n) && NoStartAfter(log, i, n)
    ensures Starts(log, n) == Starts(log, i) + 1
  {
    if log[n - 1].Begin? {
      i := n - 1;
    } else {
      i := LastStart(log, n - 1);
    }
  }

  /** The last report since the last start. */
  lemma {:induction false} WhereReported(log: seq<Event>, n: nat) returns (r: nat)
    requires n <= |log| && LastReport(log, n).Some?
    ensures r < n && log[r] == LastReport(log, n).value && IsReport(log[r])
    ensures SameEpisode(log, r, n) && NoStartAfter(log, r, n) && NoReportAfter(log, r, n)
  {
    if IsReport(log[n - 1]) {
      r := n - 1;
    } else {
      r := WhereReported(log, n - 1);
    }
  }

  /** Main result: a start `k` that is not the first of its episode is the second or
      third one; since the start `i` before it something was reported, the last of
      these reports, `r`, is a failure, and its backoff had passed at the poll `p`
      that told the caller to start. */
  lemma RetriesAreEarned(log: seq<Event>, k: nat) returns (i: nat, r: nat, p: nat)
    requires StartsWhenTold(log) && k < |log| && log[k].Begin? && Starts(log, k) > 0
    ensures i < r < k && log[i].Begin? && SameEpisode(log, i, k) && NoStartAfter(log, i, k)
    ensures Starts(log, k) == Starts(log, i) + 1 <= 2
    ensures log[r].Fail? && NoReportAfter(log, r, k)
    ensures r < p && ToldAt(log, p, k) && Waited(Starts(log, k), log[r].at, log[p].now)
  {
    p :| ToldAt(log, p, k);
    PollsChangeNothing(log, p, k);
    AnswersFollowLog(log, p);
    i := LastStart(log, k);
    r := WhereReported(log, k);
  }

  /** At most one report per start; there may be any before the first start. */
  ghost predicate OneReportPerStart(log: seq<Event>) {
    forall k: nat :: k < |log| && IsReport(log[k]) && Starts(log, k) > 0 ==> LastReport(log, k).None?
  }

  /** Main result: with one report per start, an episode that has started starts
      nothing more after a success or a third failure. */
  lemma {:induction false} EpisodeEnds(log: seq<Event>, i: nat, k: nat)
    requires StartsWhenTold(log) && OneReportPerStart(log)
    requires i < k < |log| && SameEpisode(log, i, k + 1)
    requires (log[i].Succeed? && Starts(log, i) > 0) || (log[i].Fail? && Starts(log, i) == 3)
    ensures !log[k].Begin?
    ensures LastReport(log, k + 1) == Some(log[i]) && Starts(log, k + 1) == Starts(log, i)
  {
    if k > i + 1 {
      EpisodeEnds(log, i, k - 1);
    }
    if log[k].Begin? {
      var p: nat :| ToldAt(log, p, k);
      PollsChangeNothing(log, p, k);
      AnswersFollowLog(log, p);
    }
  }

  // ---------------------------------------------------------------- reports out of turn

  ghost predicate ReportsFailure(log: seq<Event>, r: nat, i: nat, k: nat)
    requires k <= |log|
  {
    i < r < k && log[r].Fail? && NoReportAfter(log, r, k)
  }

  /** The last report from event `i` on, in an episode that starts nothing after it. */
  lemma {:induction false} LatestReport(log: seq<Event>, i: nat, k: nat) returns (r: nat)
    requires i < k <= |log| && IsReport(log[i]) && SameEpisode(log, i, k) && NoStartAfter(log, i, k)
    ensures i <= r < k && IsReport(log[r]) && NoReportAfter(log, r, k)
    ensures LastReport(log, k) == Some(log[r]) && Starts(log, k) == Starts(log, i)
  {
    if k == i + 1 {
      r := i;
    } else {
      r := LatestReport(log, i, k - 1);
      if IsReport(log[k - 1]) { r := k - 1; }
    }
  }

  /** After a success the episode starts again if and only if a failure is reported
      last after all, there were at most two starts, and the backoff has passed. */
  lemma ReopensExactly(log: seq<Event>, i: nat, k: nat)
    requires StartsWhenTold(log) && i < k < |log| && log[k].Poll?
    requires log[i].Succeed? && Starts(log, i) > 0 && SameEpisode(log, i, k + 1) && NoStartAfter(log, i, k)
    ensures Answer(log, k) <==>
      Starts(log, i) < 3
      && exists r: nat :: ReportsFailure(log, r, i, k) && Waited(Starts(log, i), log[r].at, log[k].now)
  {
    hide Waited, Answer;
    AnswersFollowLog(log, k);
    var r := LatestReport(log, i, k);
    assert LastReport(log, k + 1) == Some(log[r]) && Starts(log, k + 1) == Starts(log, i);
    if log[r].Fail? {
      assert ReportsFailure(log, r, i, k);
    }
    forall x: nat | ReportsFailure(log, x, i, k) ensures log[r] == log[x] {
      assert x >= r && r >= x;
    }
  }

  /** A failure of an older want that is reported after a poll for a new one: the
      new want is refused although nothing was started for it. */
  lemma StaleFailureRefuses(a: Want, b: Want, at: u64, now: u64)
    requires a != b
    ensures var log := [Poll(a, now), Begin, Poll(b, now), Fail(at), Poll(b, now)];
      StartsWhenTold(log) && Starts(log, 5) == 0 && !Answer(log, 4)
  {
    hide SatAdd;
    var log := [Poll(a, now), Begin, Poll(b, now), Fail(at), Poll(b, now)];
    assert RunRetry(log, 1) == Asking(Cleared(), a);
    assert RunRetry(log, 2) == AfterStart(RunRetry(log, 1));
    assert RunRetry(log, 3) == Asking(RunRetry(log, 2), b);
    assert RunRetry(log, 4) == AfterFailure(RunRetry(log, 3), at);
    assert WantAt(log, 2) == WantAt(log, 1) == Some(a) && Turns(log, 2);
    assert WantAt(log, 4) == WantAt(log, 3) == Some(b) && !Turns(log, 4) && !Turns(log, 3);
    assert Starts(log, 3) == 0 && Starts(log, 4) == 0;
    assert ToldAt(log, 0, 1);
  }

  /** Such a refusal is the only effect of reports before the first start: a poll is
      refused before it if and only if the last of them is a failure. */
  lemma FirstStartRefusedExactly(log: seq<Event>, k: nat)
    requires StartsWhenTold(log) && k < |log| && log[k].Poll? && Starts(log, k + 1) == 0
    ensures !Answer(log, k) <==>
      exists r: nat :: r < k && log[r].Fail? && SameEpisode(log, r, k + 1) && NoReportAfter(log, r, k)
  {
    AnswersFollowLog(log, k);
    if !Answer(log, k) {
      LastReportIsReport(log, k + 1);
      var r := WhereReported(log, k + 1);
      assert r != k && SameEpisode(log, r, k + 1) && NoReportAfter(log, r, k);
    }
    if r: nat :| r < k && log[r].Fail? && SameEpisode(log, r, k + 1) && NoReportAfter(log, r, k) {
      NoneStarted(log, r, k + 1);
      var x := LatestReport(log, r, k + 1);
      assert x != k && !(r < x < k);
    }
  }

  lemma {:induction false} NoneStarted(log: seq<Event>, i: nat, n: nat)
    requires i < n <= |log| && SameEpisode(log, i, n) && Starts(log, n) == 0
    ensures NoStartAfter(log, i, n)
  {
    if n > i + 1 { NoneStarted(log, i, n - 1); }
  }
}
