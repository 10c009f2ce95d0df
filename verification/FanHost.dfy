/** The world the fan helper acts on: the marker file, the fan channels, and the
    possibility that any operation fails or that the helper dies at any point.

    Every failure is a free choice.  After a crash nothing has an effect until the
    helper is started again, so the code after the point of the crash may be read
    as not running.  Nobody but the helper touches the marker or the channels. */
module FanHost {
  import opened Common
  import opened FanMarker

  datatype FanError =
    | MarkerUnreadable
    | MarkerUnsafeEntry
    | MarkerUnwritable
    | MarkerEmpty
    | UnsafeFanId
    | NotArmable
    | DiscoveryFailed
    | UnknownFan
    | NotPermitted
    | Denied
    | AlreadyCustom
    | EndpointFailed
    | AutoFailed
    | FanUnavailable(id: Id)
    | RecoveryFailed(failed: seq<Id>)
    | LegacyNeedsLifecycle
    | NotSafe
    | ShuttingDown

  const CUSTOM := 1
  const AUTO := 2
  const AUTO_COMMAND := 3

  /** What matters for safety at one moment: the marker, the channels on which a
      curve of the helper is in force, the shutdown gate, and the number of the
      process. */
  datatype Moment = Moment(marker: Option<string>, curves: set<Id>, closed: bool, process: nat)

  /** What the helper saw listed, and what it asked for: a return to Auto, a mode
      written to a channel, or a temperature or duty staged for a point. */
  datatype Event =
    | Listed(fans: set<Id>)
    | Asked(target: Option<Id>)
    | ModeWrite(id: Id, value: nat)
    | TempWrite(id: Id, index: nat, temp: nat)
    | DutyWrite(id: Id, index: nat, duty: nat)

  /** The event happened after the trace was `before` and no later than `now`. */
  ghost predicate Since(before: seq<Event>, now: seq<Event>, e: Event) {
    before <= now && e in now[|before|..]
  }

  lemma SinceWidens(a: seq<Event>, b: seq<Event>, c: seq<Event>, d: seq<Event>, e: Event)
    requires a <= b && Since(b, c, e) && c <= d
    ensures Since(a, d, e)
  {
    var i :| 0 <= i < |c| - |b| && c[|b|..][i] == e;
    assert d[|a|..][|b| - |a| + i] == e;
  }

  /** Fans may have been listed, but no channel was touched. */
  ghost predicate NothingAsked(before: seq<Event>, now: seq<Event>) {
    before <= now && forall e :: e in now[|before|..] ==> e.Listed?
  }

  // ---------------------------------------------------------------- coverage

  ghost predicate HasLegacy(marker: Option<string>) {
    LEGACY in Armed(marker)
  }

  /** The channels under a curve that neither their own entry nor the legacy entry,
      which stands for all channels, remembers. */
  ghost function Uncovered(m: Moment): set<Id> {
    if HasLegacy(m.marker) then {} else m.curves - Armed(m.marker)
  }

  /** Every channel under a curve is named by the marker, or the marker holds the
      legacy entry. */
  ghost predicate NamedOrLegacy(m: Moment) {
    HasLegacy(m.marker) || m.curves <= Armed(m.marker)
  }

  lemma NothingLeft(all: set<Id>, found: set<Id>)
    ensures all - found == {} <==> all <= found
  {
    if all - found == {} {
      forall id | id in all ensures id in found {
        assert id !in all - found;
      }
    }
  }

  lemma CoveredIsNothingUncovered(m: Moment)
    ensures NamedOrLegacy(m) <==> Uncovered(m) == {}
  {
    NothingLeft(m.curves, Armed(m.marker));
  }

  /** What a legacy recovery that succeeds leaves behind. */
  ghost predicate LegacyRecovered(before: Moment, found: set<Id>, after: Moment) {
    HasLegacy(before.marker) && found != {}
    && after == before.(marker := None, curves := before.curves - found)
  }

  /** A legacy recovery keeps every channel under a curve covered exactly when it
      discovered all of them, which is not checked before the marker is cleared. */
  lemma LegacyRecoveryCovers(before: Moment, found: set<Id>, after: Moment)
    requires LegacyRecovered(before, found, after)
    ensures NamedOrLegacy(after) <==> before.curves <= found
  {
    assert Armed(None) == {};
    NothingLeft(before.curves, found);
  }

  /** A legacy marker, the GPU fan under a curve, and only the CPU fan discovered. */
  lemma LegacyRecoveryCanMiss()
    ensures var before, found := Moment(Some(LEGACY + "\n"), {"asus-wmi:gpu"}, false, 0), {"asus-wmi:cpu"};
      NamedOrLegacy(before)
      && forall after: Moment :: LegacyRecovered(before, found, after) <==>
           after == Moment(None, {"asus-wmi:gpu"}, false, 0) && !NamedOrLegacy(after)
  {
    var before, found := Moment(Some(LEGACY + "\n"), {"asus-wmi:gpu"}, false, 0), {"asus-wmi:cpu"};
    assert JoinLines([LEGACY]) == LEGACY + "\n";
    MarkerRoundTrip([LEGACY]);
    assert LEGACY in Elements([LEGACY]);
    assert before.curves - found == {"asus-wmi:gpu"};
    assert "asus-wmi:gpu" in {"asus-wmi:gpu"} && "asus-wmi:gpu" !in Armed(None);
  }

  // ---------------------------------------------------------------- histories

  /** The legacy entry is removed by removing the marker. */
  ghost predicate LegacyCleared(before: Moment, after: Moment) {
    HasLegacy(before.marker) && after == before.(marker := None)
  }

  /** One step of a history, where `always` are the channels that every discovery
      finds.  A closed gate stays closed in the same process, and meanwhile no
      channel goes under a curve; the legacy entry never appears; and no channel
      loses its cover, except when the legacy entry is removed, which only happens
      when the discovered ones are in Auto. */
  ghost predicate Kept(before: Moment, after: Moment, always: set<Id>) {
    && before.process <= after.process
    && (before.closed && before.process == after.process ==> after.closed && after.curves <= before.curves)
    && (HasLegacy(after.marker) ==> HasLegacy(before.marker))
    && (Uncovered(after) <= Uncovered(before) || (LegacyCleared(before, after) && after.curves !! always))
  }

  ghost predicate SafeHistory(history: seq<Moment>, always: set<Id>) {
    && history != [] && NamedOrLegacy(history[0])
    && (forall i :: 0 <= i < |history| - 1 ==> Kept(history[i], history[i + 1], always))
  }

  ghost predicate AllCovered(history: seq<Moment>) {
    forall i :: 0 <= i < |history| ==> NamedOrLegacy(history[i])
  }

  /** Whenever the legacy entry is removed nothing is under a curve any more. */
  ghost predicate ClearedInAuto(history: seq<Moment>) {
    forall i :: 0 <= i < |history| - 1 && LegacyCleared(history[i], history[i + 1]) ==> history[i].curves == {}
  }

  lemma HistoryExtends(history: seq<Moment>, always: set<Id>, m: Moment)
    requires SafeHistory(history, always) && Kept(history[|history| - 1], m, always)
    ensures SafeHistory(history + [m], always)
  {
  }

  lemma {:induction false} ProcessesGoOn(history: seq<Moment>, always: set<Id>, i: nat, j: nat)
    requires SafeHistory(history, always) && i <= j < |history|
    ensures history[i].process <= history[j].process
    decreases j
  {
    if i < j {
      ProcessesGoOn(history, always, i, j - 1);
      assert Kept(history[j - 1], history[j], always);
    }
  }

  /** Main result: once the gate is closed it stays closed at every moment of the
      process, and no channel goes under a curve any more. */
  lemma {:induction false} GateStaysShut(history: seq<Moment>, always: set<Id>, i: nat, j: nat)
    requires SafeHistory(history, always) && i <= j < |history|
    requires history[i].closed && history[i].process == history[j].process
    ensures history[j].closed && history[j].curves <= history[i].curves
    decreases j
  {
    if i < j {
      ProcessesGoOn(history, always, i, j - 1);
      ProcessesGoOn(history, always, j - 1, j);
      GateStaysShut(history, always, i, j - 1);
      assert Kept(history[j - 1], history[j], always);
    }
  }

  lemma {:induction false} NeverLegacy(history: seq<Moment>, always: set<Id>, i: nat)
    requires SafeHistory(history, always) && i < |history| && !HasLegacy(history[0].marker)
    ensures !HasLegacy(history[i].marker)
  {
    if i > 0 {
      NeverLegacy(history, always, i - 1);
      assert Kept(history[i - 1], history[i], always);
    }
  }

  lemma {:induction false} CoveredUpTo(history: seq<Moment>, always: set<Id>, i: nat)
    requires SafeHistory(history, always) && i < |history| && ClearedInAuto(history)
    ensures NamedOrLegacy(history[i])
  {
    if i > 0 {
      var before, after := history[i - 1], history[i];
      CoveredUpTo(history, always, i - 1);
      assert Kept(before, after, always);
      CoveredIsNothingUncovered(before);
      CoveredIsNothingUncovered(after);
      assert LegacyCleared(before, after) ==> before.curves == {};
    }
  }

  /** Main result: all moments of a history are covered exactly when nothing was
      under a curve any more whenever the legacy entry was removed. */
  lemma CoveredExactly(history: seq<Moment>, always: set<Id>)
    requires SafeHistory(history, always)
    ensures AllCovered(history) <==> ClearedInAuto(history)
  {
    if ClearedInAuto(history) {
      forall i | 0 <= i < |history| ensures NamedOrLegacy(history[i]) {
        CoveredUpTo(history, always, i);
      }
    }
    if AllCovered(history) {
      forall i | 0 <= i < |history| - 1 && LegacyCleared(history[i], history[i + 1])
        ensures history[i].curves == {}
      {
        assert NamedOrLegacy(history[i + 1]) && Armed(None) == {};
      }
    }
  }

  /** Main result: without a legacy entry at the start, or when every discovery finds
      every channel that was ever under a curve, all moments are covered. */
  lemma CoveredThroughout(history: seq<Moment>, always: set<Id>)
    requires SafeHistory(history, always)
    requires !HasLegacy(history[0].marker) || forall i :: 0 <= i < |history| ==> history[i].curves <= always
    ensures AllCovered(history)
  {
    forall i | 0 <= i < |history| - 1 && LegacyCleared(history[i], history[i + 1])
      ensures history[i].curves == {}
    {
      assert Kept(history[i], history[i + 1], always);
      if !HasLegacy(history[0].marker) {
        NeverLegacy(history, always, i);
      } else {
        assert history[i].curves <= always;
        Uncovers(history[i], history[i + 1], always);
      }
    }
    CoveredExactly(history, always);
  }

  lemma Uncovers(before: Moment, after: Moment, always: set<Id>)
    requires LegacyCleared(before, after) && Kept(before, after, always) && before.curves <= always
    ensures before.curves == {}
  {
    assert Armed(None) == {};
    NothingLeft(after.curves, {});
  }

  class Host {
    var marker: Option<string>
    var enable: map<Id, nat>
    var closed: bool
    var alive: bool
    ghost var process: nat
    ghost var curves: set<Id>
    ghost var history: seq<Moment>
    ghost var trace: seq<Event>
    /** How often something failed or the helper died. */
    ghost var failures: nat
    /** Channels that every listing and every successful discovery finds; there need
        not be any. */
    const always: set<Id>

    ghost function Now(): Moment
      reads this
    {
      Moment(marker, curves, closed, process)
    }

    /** The history is safe and ends with the present; only channels in custom
        mode are under a curve, now and before. */
    ghost predicate Valid()
      reads this
    {
      && SafeHistory(history, always) && history[|history| - 1] == Now()
      && always <= enable.Keys
      && (forall id :: id in curves ==> id in enable && enable[id] == CUSTOM)
      && (forall i :: 0 <= i < |history| ==> history[i].curves <= enable.Keys)
    }

    /** The helper does not come back to life, and dies only by a failure. */
    twostate predicate Lives()
      reads this
    {
      (alive ==> old(alive)) && old(failures) <= failures && (failures == old(failures) ==> alive == old(alive))
    }

    /** The helper was dead, or something failed. */
    twostate predicate Hindered()
      reads this
    {
      !old(alive) || old(failures) < failures
    }

    /** No channel, mode or marker was touched. */
    twostate predicate Untouched()
      reads this
    {
      && marker == old(marker) && enable == old(enable) && curves == old(curves)
      && history == old(history) && NothingAsked(old(trace), trace)
    }

    /** Any start in which the channels already under a curve are covered. */
    constructor (marker: Option<string>, enable: map<Id, nat>, ghost curves: set<Id>, always: set<Id>)
      requires forall id :: id in curves ==> id in enable && enable[id] == CUSTOM
      requires HasLegacy(marker) || curves <= Armed(marker)
      requires always <= enable.Keys
      ensures Valid() && Now() == Moment(marker, curves, false, 0) && history == [Now()]
      ensures alive && this.enable == enable && this.always == always && trace == [] && failures == 0
    {
      this.marker, this.enable, closed, alive := marker, enable, false, true;
      this.curves, this.always := curves, always;
      process, trace, failures := 0, [], 0;
      history := [Moment(marker, curves, false, 0)];
    }

    // ------------------------------------------------------------ the process

    /** Sets the shutdown flag, which a new process starts without. */
    method CloseGate()
      requires Valid()
      modifies this`closed, this`history
      ensures Valid() && history == old(history) + [Now()]
      ensures closed == (old(closed) || alive)
    {
      ghost var before := history;
      closed := closed || alive;
      history := history + [Now()];
      HistoryExtends(before, always, Now());
    }

    method StartProcess()
      requires Valid()
      modifies this`closed, this`alive, this`process, this`history
      ensures Valid() && history == old(history) + [Now()]
      ensures alive && !closed && process == old(process) + 1
    {
      ghost var before := history;
      alive, closed, process := true, false, process + 1;
      history := history + [Now()];
      HistoryExtends(before, always, Now());
    }

    /** Whether something fails; the helper may die of it. */
    method Fails() returns (fails: bool)
      modifies this`alive, this`failures
      ensures Lives()
      ensures fails ==> Hindered()
      ensures !fails ==> alive && failures == old(failures)
    {
      fails := !alive;
      if alive {
        if * {
          fails, failures := true, failures + 1;
          if * {
            alive := false;
          }
        }
      }
    }

    // ------------------------------------------------------------ the marker file

    method ReadMarkerFile() returns (r: Result<Option<string>, FanError>)
      modifies this`alive, this`failures
      ensures Lives()
      ensures r.Ok? ==> r.value == marker
      ensures r.Err? ==> r.error == MarkerUnreadable && Hindered()
    {
      var fails := Fails();
      r := if fails then Err(MarkerUnreadable) else Ok(marker);
    }

    /** Replaces the marker in one step; it may be replaced and still report failure. */
    method WriteMarkerFile(contents: string) returns (r: Result<(), FanError>)
      modifies this`marker, this`alive, this`failures, this`history
      ensures Lives()
      ensures marker == old(marker) || (old(alive) && marker == Some(contents))
      ensures r.Ok? ==> marker == Some(contents)
      ensures r.Err? ==> r.error == MarkerUnwritable && Hindered()
      ensures history == old(history) + [Now()]
    {
      r := Err(MarkerUnwritable);
      var fails := Fails();
      if !fails {
        marker := Some(contents);
        fails := Fails();
        if !fails {
          r := Ok(());
        }
      }
      history := history + [Now()];
    }

    /** Removes the marker; a failure that the helper lives to see removed nothing. */
    method RemoveMarkerFile() returns (r: Result<(), FanError>)
      modifies this`marker, this`alive, this`failures, this`history
      ensures Lives()
      ensures marker == old(marker) || (old(alive) && marker == None)
      ensures r.Ok? ==> marker == None
      ensures r.Err? && alive ==> marker == old(marker)
      ensures r.Err? ==> r.error == MarkerUnwritable && Hindered()
      ensures history == old(history) + [Now()]
    {
      r := Err(MarkerUnwritable);
      var fails := Fails();
      if !fails {
        marker := None;
        if * {
          alive, failures := false, failures + 1;
        } else {
          r := Ok(());
        }
      }
      history := history + [Now()];
    }

    // ------------------------------------------------------------ the channels

    /** Some of the channels, among them those of `always`. */
    method SomeChannels() returns (found: set<Id>)
      requires always <= enable.Keys
      ensures always <= found <= enable.Keys
    {
      found := always;
      var rest := enable.Keys;
      while rest != {}
        invariant rest + found <= enable.Keys && always <= found
        decreases |rest|
      {
        var id :| id in rest;
        rest := rest - {id};
        if * {
          found := found + {id};
        }
      }
    }

    /** Lists the fans that can be controlled, possibly none; which it lists besides
        those of `always` may change from call to call. */
    method ListFans() returns (r: Result<set<Id>, FanError>)
      requires always <= enable.Keys
      modifies this`trace, this`alive, this`failures
      ensures Lives()
      ensures r.Ok? ==> always <= r.value <= enable.Keys && trace == old(trace) + [Listed(r.value)]
      ensures r.Err? ==> r.error == DiscoveryFailed && Hindered() && trace == old(trace)
    {
      var fails := Fails();
      if fails {
        return Err(DiscoveryFailed);
      }
      var found := SomeChannels();
      trace := trace + [Listed(found)];
      r := Ok(found);
    }

    /** Finds verified channels; which it finds besides those of `always` may change
        from call to call.  Finding none is an error. */
    method Discover() returns (r: Result<set<Id>, FanError>)
      requires always <= enable.Keys
      modifies this`alive, this`failures
      ensures Lives()
      ensures r.Ok? ==> always <= r.value <= enable.Keys && r.value != {}
      ensures r.Err? ==> r.error == DiscoveryFailed && (Hindered() || always == {})
    {
      var fails := Fails();
      if fails {
        return Err(DiscoveryFailed);
      }
      var found := SomeChannels();
      if found == {} {
        return Err(DiscoveryFailed);
      }
      r := Ok(found);
    }

    /** Writes the mode of a channel.  The driver reports AUTO after the command.  It
        may also take the write without following it, which counts as a failure. */
    method WriteEnable(id: Id, value: nat) returns (r: Result<(), FanError>)
      modifies this`enable, this`trace, this`curves, this`alive, this`failures, this`history
      ensures Lives()
      ensures enable.Keys == old(enable.Keys)
      ensures ModeKept(old(enable), old(curves))
              || (old(alive) && id in enable && ModeWritten(old(enable), old(curves), id, value))
      ensures r.Ok? ==> id in enable
      ensures r.Ok? && !Hindered() ==> ModeWritten(old(enable), old(curves), id, value)
      ensures r.Err? ==> r.error == EndpointFailed && (id !in enable || Hindered())
      ensures history == old(history) + [Now()] && trace == old(trace) + [ModeWrite(id, value)]
    {
      r := Err(EndpointFailed);
      trace := trace + [ModeWrite(id, value)];
      var fails := Fails();
      if !fails && id in enable {
        if value == AUTO_COMMAND {
          if * {
            enable := enable[id := AUTO];
          } else {
            enable := enable[id := value];
          }
        } else {
          enable := enable[id := value];
        }
        curves := if value == CUSTOM then curves + {id} else curves - {id};
        fails := Fails();
        if !fails {
          r := Ok(());
        }
      } else if id in enable && alive {
        if * {
          r := Ok(());
        }
      }
      history := history + [Now()];
    }

    ghost predicate ModeKept(e: map<Id, nat>, c: set<Id>)
      reads this
    {
      enable == e && curves == c
    }

    ghost predicate ModeWritten(e: map<Id, nat>, c: set<Id>, id: Id, value: nat)
      reads this
    {
      && curves == (if value == CUSTOM then c + {id} else c - {id})
      && (enable == e[id := value] || (value == AUTO_COMMAND && enable == e[id := AUTO]))
    }

    method ReadEnable(id: Id) returns (r: Option<nat>)
      modifies this`alive, this`failures
      ensures Lives()
      ensures r.Some? ==> id in enable && r.value == enable[id]
      ensures r.None? ==> id !in enable || Hindered()
    {
      var fails := Fails();
      r := if fails || id !in enable then None else Some(enable[id]);
    }

    /** Stages a temperature or a duty of the channel, which changes no mode. */
    method WritePoint(id: Id, write: Event) returns (r: Result<(), FanError>)
      modifies this`trace, this`alive, this`failures
      ensures Lives()
      ensures r.Err? ==> r.error == EndpointFailed && (id !in enable || Hindered())
      ensures trace == old(trace) + [write]
    {
      trace := trace + [write];
      var fails := Fails();
      r := if fails || id !in enable then Err(EndpointFailed) else Ok(());
    }
  }
}
