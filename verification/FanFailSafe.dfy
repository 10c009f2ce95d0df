/** The helper's fan operations: arming the marker before a curve is written,
    disarming it only after a return to Auto, recovery, and the shutdown gate. */
module FanFailSafe {
  import opened Common
  import opened FanMarker
  import opened FanHost
  import opened FanCurve
  import opened FanValidate

  // ---------------------------------------------------------------- marker operations

  method ReadFanSafetyMarker(h: Host) returns (r: Result<seq<Id>, FanError>)
    modifies h`alive, h`failures
    ensures h.Lives()
    ensures r.Ok? ==> Elements(r.value) == Armed(h.marker) && forall id | id in r.value :: IsEntry(id)
    ensures r.Ok? && h.marker.Some? ==> ParseMarker(h.marker.value) == Some(r.value)
    ensures r.Ok? && h.marker.None? ==> r.value == []
    ensures r.Err? ==> (r.error == MarkerUnreadable && h.Hindered())
                       || (r.error == MarkerUnsafeEntry && !Legible(h.marker) && Armed(h.marker) == {})
    ensures r.Ok? ==> Legible(h.marker)
  {
    var read := h.ReadMarkerFile();
    if read.Err? {
      return Err(read.error);
    }
    if read.value.None? {
      return Ok([]);
    }
    var parsed := ParseMarker(read.value.value);
    if parsed.None? {
      return Err(MarkerUnsafeEntry);
    }
    r := Ok(parsed.value);
  }

  /** Writes a marker that arms exactly the given channels. */
  method WriteFanSafetyMarkerIds(h: Host, armed: seq<Id>) returns (r: Result<(), FanError>)
    requires h.Valid() && (LEGACY in armed ==> HasLegacy(h.marker))
    requires LEGACY in armed || h.curves - Elements(armed) <= Uncovered(h.Now())
    modifies h`marker, h`alive, h`failures, h`history
    ensures h.Valid() && old(h.history) <= h.history
    ensures HasLegacy(h.marker) ==> HasLegacy(old(h.marker))
    ensures h.Lives()
    ensures r.Ok? ==> Armed(h.marker) == Elements(armed) && Legible(h.marker)
    ensures r.Err? ==> r.error in {NotArmable, MarkerUnwritable}
    ensures r.Err? && armed != [] && (forall id | id in armed :: IsEntry(id)) ==> h.Hindered()
    ensures h.marker == old(h.marker) || Armed(h.marker) == Elements(armed)
  {
    hide ParseMarker, IsEntry, SortedIds, JoinLines, Legible;
    var sorted := SortedIds(armed);
    SortedKeeps(armed);
    assert armed != [] ==> armed[0] in sorted;
    if sorted == [] || exists id | id in sorted :: !IsEntry(id) {
      return Err(NotArmable);
    }
    WrittenArms(armed);
    ghost var history, was := h.history, h.Now();
    r := h.WriteMarkerFile(JoinLines(sorted));
    HistoryExtends(history, h.always, h.Now());
  }

  /** What only a request is refused with. */
  predicate IsRefusal(e: FanError) {
    e in {Denied, ShuttingDown, LegacyNeedsLifecycle}
  }

  predicate IsMarkerError(e: FanError) {
    e in {UnsafeFanId, MarkerUnreadable, MarkerUnsafeEntry, NotArmable, MarkerUnwritable}
  }

  method WriteFanSafetyMarker(h: Host, id: Id) returns (r: Result<(), FanError>)
    requires h.Valid()
    modifies h`marker, h`alive, h`failures, h`history
    ensures h.Valid() && old(h.history) <= h.history
    ensures HasLegacy(h.marker) ==> HasLegacy(old(h.marker))
    ensures h.Lives()
    ensures Armed(old(h.marker)) <= Armed(h.marker) <= Armed(old(h.marker)) + {id}
    ensures r.Ok? ==> id in Armed(h.marker) && IsSafeId(id) && id != LEGACY
    ensures r.Err? ==> IsMarkerError(r.error)
    ensures r.Err? && IsSafeId(id) && Legible(old(h.marker)) ==> h.Hindered()
  {
    hide ParseMarker;
    if !IsSafeId(id) {
      return Err(UnsafeFanId);
    }
    var read := ReadFanSafetyMarker(h);
    if read.Err? {
      return Err(read.error);
    }
    var armed := read.value;
    if id !in armed {
      armed := armed + [id];
    }
    r := WriteFanSafetyMarkerIds(h, armed);
  }

  method ClearFanSafetyMarker(h: Host) returns (r: Result<(), FanError>)
    requires h.Valid() && if HasLegacy(h.marker) then h.curves !! h.always else h.curves !! Armed(h.marker)
    modifies h`marker, h`alive, h`failures, h`history
    ensures h.Valid() && old(h.history) <= h.history
    ensures HasLegacy(h.marker) ==> HasLegacy(old(h.marker))
    ensures h.Lives()
    ensures h.marker == old(h.marker) || h.marker == None
    ensures r.Ok? ==> h.marker == None
    ensures r.Err? && h.alive ==> h.marker == old(h.marker)
    ensures r.Err? ==> r.error == MarkerUnwritable && h.Hindered()
  {
    ghost var history := h.history;
    r := h.RemoveMarkerFile();
    HistoryExtends(history, h.always, h.Now());
  }

  function Without(ids: seq<Id>, id: Id): (r: seq<Id>)
    ensures forall x :: x in r <==> x in ids && x != id
  {
    if ids == [] then [] else (if ids[0] == id then [] else [ids[0]]) + Without(ids[1..], id)
  }

  /** Forgets a channel that is back in Auto; the other channels stay armed. */
  method DisarmFanChannel(h: Host, id: Id) returns (r: Result<(), FanError>)
    requires h.Valid() && id !in h.curves && id != LEGACY
    modifies h`marker, h`alive, h`failures, h`history
    ensures h.Valid() && old(h.history) <= h.history
    ensures HasLegacy(h.marker) ==> HasLegacy(old(h.marker))
    ensures h.Lives()
    ensures h.marker == old(h.marker) || Armed(h.marker) == Armed(old(h.marker)) - {id}
    ensures r.Ok? ==> Armed(h.marker) == Armed(old(h.marker)) - {id}
    ensures r.Err? ==> IsMarkerError(r.error)
    ensures r.Err? && Legible(old(h.marker)) ==> h.Hindered()
  {
    hide ParseMarker, Legible;
    var read := ReadFanSafetyMarker(h);
    if read.Err? {
      return Err(read.error);
    }
    var armed := Without(read.value, id);
    assert Elements(armed) == Armed(h.marker) - {id};
    if armed == [] {
      assert Armed(h.marker) <= {id};
      r := ClearFanSafetyMarker(h);
    } else {
      r := WriteFanSafetyMarkerIds(h, armed);
    }
  }

  // ---------------------------------------------------------------- channels

  /** Returns one channel to Auto and checks that it got there. */
  method ResetChannelToAuto(h: Host, id: Id) returns (r: Result<(), FanError>)
    requires h.Valid()
    modifies h`enable, h`trace, h`curves, h`alive, h`failures, h`history
    ensures h.Valid() && old(h.history) <= h.history
    ensures h.Lives()
    ensures h.enable.Keys == old(h.enable.Keys)
    ensures old(h.curves) - {id} <= h.curves <= old(h.curves)
    ensures r.Ok? ==> id !in h.curves && id in h.enable && h.enable[id] in {2, 3}
    ensures r.Err? ==> id !in h.enable || h.Hindered()
    ensures h.trace == old(h.trace) + [ModeWrite(id, 3)]
  {
    hide ParseMarker;
    ghost var history := h.history;
    r := h.WriteEnable(id, AUTO_COMMAND);
    HistoryExtends(history, h.always, h.Now());
    if r.Err? {
      return;
    }
    var actual := h.ReadEnable(id);
    if !(actual == Some(AUTO) || actual == Some(AUTO_COMMAND)) {
      return Err(AutoFailed);
    }
    r := Ok(());
  }

  /** Returns one channel, or all that are discovered, to Auto; every selected
      channel is attempted even when others fail. */
  method SetFanAuto(h: Host, target: Option<Id>) returns (r: Result<(), FanError>, ghost found: set<Id>)
    requires h.Valid()
    modifies h`enable, h`trace, h`curves, h`alive, h`failures, h`history
    ensures h.Valid() && old(h.history) <= h.history
    ensures h.Lives()
    ensures h.curves <= old(h.curves)
    ensures target.Some? ==> old(h.curves) - {target.value} <= h.curves
    ensures r.Ok? && target.Some? ==> target.value !in h.curves
    ensures r.Ok? && target.None? ==> h.curves == old(h.curves) - found && found != {} && h.always <= found
    ensures r.Err? ==> r.error in {DiscoveryFailed, UnknownFan, AutoFailed}
    ensures r.Err? ==> h.Hindered() || h.always == {} || (target.Some? && target.value !in h.always)
    ensures old(h.trace) <= h.trace && Since(old(h.trace), h.trace, Asked(target))
    ensures r.Ok? || r.error == AutoFailed ==>
      forall id :: id in (if target.Some? then {target.value} else found) ==>
        Since(old(h.trace), h.trace, ModeWrite(id, 3))
  {
    hide ParseMarker;
    ghost var before := h.trace;
    h.trace := h.trace + [Asked(target)];
    ghost var asked := h.trace;
    assert Since(before, asked, Asked(target)) by { assert asked[|before|..] == [Asked(target)]; }
    found := {};
    var discovered := h.Discover();
    if discovered.Err? {
      return Err(DiscoveryFailed), {};
    }
    found := discovered.value;
    var selected := discovered.value;
    if target.Some? {
      if target.value !in discovered.value {
        return Err(UnknownFan), found;
      }
      selected := {target.value};
    }
    assert selected <= h.enable.Keys;
    var failed := ResetChannels(h, selected);
    SinceWidens(before, before, asked, h.trace, Asked(target));
    forall id | id in selected ensures Since(before, h.trace, ModeWrite(id, 3)) {
      SinceWidens(before, asked, h.trace, h.trace, ModeWrite(id, 3));
    }
    r := if failed then Err(AutoFailed) else Ok(());
  }

  /** Attempts every one of the channels, whether or not others fail. */
  method ResetChannels(h: Host, channels: set<Id>) returns (failed: bool)
    requires h.Valid()
    modifies h`enable, h`trace, h`curves, h`alive, h`failures, h`history
    ensures h.Valid() && old(h.history) <= h.history
    ensures h.Lives()
    ensures old(h.curves) - channels <= h.curves <= old(h.curves)
    ensures !failed ==> h.curves == old(h.curves) - channels
    ensures h.enable.Keys == old(h.enable.Keys)
    ensures failed && channels <= h.enable.Keys ==> h.Hindered()
    ensures old(h.trace) <= h.trace
    ensures forall id :: id in channels ==> Since(old(h.trace), h.trace, ModeWrite(id, 3))
  {
    ghost var start := h.trace;
    var selected := channels;
    failed := false;
    while selected != {}
      invariant h.Valid() && old(h.history) <= h.history
      invariant selected <= channels && h.Lives()
      invariant old(h.curves) - channels <= h.curves <= old(h.curves)
      invariant !failed ==> forall id :: id in h.curves && id in channels ==> id in selected
      invariant h.enable.Keys == old(h.enable.Keys)
      invariant failed && channels <= h.enable.Keys ==> h.Hindered()
      invariant start <= h.trace
      invariant forall id :: id in channels - selected ==> Since(start, h.trace, ModeWrite(id, 3))
      decreases |selected|
    {
      var id :| id in selected;
      ghost var done, before := channels - selected, h.trace;
      selected := selected - {id};
      var reset := ResetChannelToAuto(h, id);
      assert h.trace[|before|..] == [ModeWrite(id, 3)];
      SinceWidens(start, before, h.trace, h.trace, ModeWrite(id, 3));
      forall x | x in done ensures Since(start, h.trace, ModeWrite(x, 3)) {
        SinceWidens(start, start, before, h.trace, ModeWrite(x, 3));
      }
      if reset.Err? {
        failed := true;
      }
    }
  }

  /** The channel, not in custom mode before, reports it after the write, or the
      write failed. */
  method EnableCustom(h: Host, id: Id) returns (r: Result<(), FanError>)
    requires h.Valid() && !h.closed && (LEGACY in Armed(h.marker) || id in Armed(h.marker))
    requires id in h.enable ==> h.enable[id] != CUSTOM
    modifies h`enable, h`trace, h`curves, h`alive, h`failures, h`history
    ensures h.Valid() && old(h.history) <= h.history
    ensures h.Lives()
    ensures old(h.curves) <= h.curves <= old(h.curves) + {id}
    ensures r.Ok? ==> id in h.curves && id in h.enable && h.enable[id] == 1
    ensures r.Err? ==> r.error == EndpointFailed && (id !in h.enable || h.Hindered())
    ensures h.trace == old(h.trace) + [ModeWrite(id, 1)]
    ensures h.enable.Keys == old(h.enable.Keys)
  {
    hide ParseMarker;
    ghost var history := h.history;
    r := h.WriteEnable(id, CUSTOM);
    HistoryExtends(history, h.always, h.Now());
    if r.Err? {
      return;
    }
    var actual := h.ReadEnable(id);
    r := if actual == Some(CUSTOM) then Ok(()) else Err(EndpointFailed);
  }

  /** The temperature and the duty of each of the first `n` points were staged, in
      order and numbered from one, and nothing else was asked for. */
  ghost predicate Staged(before: seq<Event>, now: seq<Event>, id: Id, points: seq<FanPoint>, n: nat)
    requires n <= |points|
  {
    && before <= now && |now| == |before| + 2 * n
    && forall k :: 0 <= k < n ==>
         && now[|before| + 2 * k] == TempWrite(id, k + 1, points[k].temp)
         && now[|before| + 2 * k + 1] == DutyWrite(id, k + 1, points[k].duty)
  }

  /** All points were staged and then the channel was put in custom mode. */
  ghost predicate CurveWritten(before: seq<Event>, now: seq<Event>, id: Id, points: seq<FanPoint>) {
    |now| > 0 && now[|now| - 1] == ModeWrite(id, 1) && Staged(before, now[..|now| - 1], id, points, |points|)
  }

  /** Stages the points one after the other, which changes no mode. */
  method StagePoints(h: Host, id: Id, points: seq<FanPoint>) returns (r: Result<(), FanError>)
    modifies h`trace, h`alive, h`failures
    ensures h.Lives()
    ensures r.Ok? ==> Staged(old(h.trace), h.trace, id, points, |points|)
    ensures r.Err? ==> r.error == EndpointFailed && (id !in h.enable || h.Hindered())
    ensures old(h.trace) <= h.trace
  {
    for i := 0 to |points|
      invariant h.Lives()
      invariant Staged(old(h.trace), h.trace, id, points, i)
    {
      r := h.WritePoint(id, TempWrite(id, i + 1, points[i].temp));
      if r.Err? {
        return;
      }
      r := h.WritePoint(id, DutyWrite(id, i + 1, points[i].duty));
      if r.Err? {
        return;
      }
    }
    r := Ok(());
  }

  /** Undoes a failed curve write: the channel is returned to Auto and disarmed. */
  method RestoreAfterFailedWrite(h: Host, id: Id) returns (r: Result<(), FanError>)
    requires h.Valid() && id != LEGACY
    modifies h`marker, h`enable, h`trace, h`curves, h`alive, h`failures, h`history
    ensures h.Valid() && old(h.history) <= h.history
    ensures HasLegacy(h.marker) ==> HasLegacy(old(h.marker))
    ensures h.Lives()
    ensures h.curves <= old(h.curves)
    ensures r.Ok? || r.error != AutoFailed ==> id !in h.curves
    ensures r.Ok? ==> Armed(h.marker) == Armed(old(h.marker)) - {id}
    ensures r.Err? ==> r.error == AutoFailed || IsMarkerError(r.error)
    ensures Since(old(h.trace), h.trace, ModeWrite(id, 3))
    ensures r.Err? && r.error == AutoFailed ==> id !in old(h.enable) || h.Hindered()
  {
    hide ParseMarker;
    ghost var before := h.trace;
    var reset := ResetChannelToAuto(h, id);
    assert h.trace[|before|..] == [ModeWrite(id, 3)];
    if reset.Err? {
      return Err(AutoFailed);
    }
    r := DisarmFanChannel(h, id);
  }

  /** Writes the points and then the mode of an armed channel. */
  method WriteStaged(h: Host, id: Id, points: seq<FanPoint>) returns (r: Result<(), FanError>)
    requires h.Valid() && !h.closed && (LEGACY in Armed(h.marker) || id in Armed(h.marker))
    requires id in h.enable ==> h.enable[id] != CUSTOM
    modifies h`enable, h`trace, h`curves, h`alive, h`failures, h`history
    ensures h.Valid() && old(h.history) <= h.history
    ensures h.Lives()
    ensures old(h.curves) <= h.curves <= old(h.curves) + {id}
    ensures r.Ok? ==> id in h.curves && CurveWritten(old(h.trace), h.trace, id, points)
    ensures r.Err? ==> r.error == EndpointFailed && (id !in h.enable || h.Hindered())
    ensures old(h.trace) <= h.trace && h.enable.Keys == old(h.enable.Keys)
  {
    hide ParseMarker;
    r := StagePoints(h, id, points);
    if r.Ok? {
      ghost var staged := h.trace;
      r := EnableCustom(h, id);
      assert h.trace[..|h.trace| - 1] == staged;
    }
  }

  /** Writes an armed channel and undoes the write when it fails. */
  method WriteOrRestore(h: Host, id: Id, points: seq<FanPoint>) returns (r: Result<(), FanError>)
    requires h.Valid() && !h.closed && id in Armed(h.marker) && id != LEGACY
    requires id in h.enable ==> h.enable[id] != CUSTOM
    modifies h`marker, h`enable, h`trace, h`curves, h`alive, h`failures, h`history
    ensures h.Valid() && old(h.history) <= h.history && old(h.trace) <= h.trace
    ensures HasLegacy(h.marker) ==> HasLegacy(old(h.marker))
    ensures h.Lives()
    ensures r.Err? ==> !IsRefusal(r.error)
    ensures h.curves <= old(h.curves) + {id}
    ensures r.Ok? ==> id in h.curves && h.marker == old(h.marker)
    ensures r.Ok? ==> CurveWritten(old(h.trace), h.trace, id, points)
    ensures r.Err? ==> id !in old(h.enable) || h.Hindered()
    ensures r.Err? && r.error != AutoFailed ==> h.curves <= old(h.curves)
    ensures r.Err? && r.error == EndpointFailed ==> Armed(h.marker) == Armed(old(h.marker)) - {id}
    ensures r.Err? && r.error == AutoFailed ==>
      Since(old(h.trace), h.trace, ModeWrite(id, 3)) && (id !in old(h.enable) || h.Hindered())
  {
    hide ParseMarker, CurveWritten;
    ghost var before := h.trace;
    r := WriteStaged(h, id, points);
    if r.Ok? {
      return;
    }
    ghost var staged := h.trace;
    var restored := RestoreAfterFailedWrite(h, id);
    SinceWidens(before, staged, h.trace, h.trace, ModeWrite(id, 3));
    if restored.Err? {
      return Err(restored.error);
    }
  }

  /** Puts a channel under a curve: the marker is armed before the first hardware
      write.  A failed write is returned to Auto and then disarmed again; only when
      the return to Auto was commanded and something failed may the channel stay
      under a curve, armed. */
  method WriteCurveTransaction(h: Host, id: Id, points: seq<FanPoint>) returns (r: Result<(), FanError>)
    requires h.Valid() && !h.closed
    modifies h`marker, h`enable, h`trace, h`curves, h`alive, h`failures, h`history
    ensures h.Valid() && old(h.history) <= h.history && old(h.trace) <= h.trace
    ensures HasLegacy(h.marker) ==> HasLegacy(old(h.marker))
    ensures h.Lives()
    ensures r.Err? ==> !IsRefusal(r.error)
    ensures h.curves <= old(h.curves) + {id}
    ensures r.Ok? ==> id in h.curves && id in Armed(h.marker)
    ensures r.Ok? ==> id in old(h.enable) && old(h.enable)[id] != 1
    ensures r.Ok? ==> CurveWritten(old(h.trace), h.trace, id, points)
    ensures r.Err? && id in old(h.enable) && old(h.enable)[id] != 1 && IsSafeId(id) && Legible(old(h.marker)) ==>
      h.Hindered()
    ensures r.Err? && r.error != AutoFailed ==> h.curves <= old(h.curves)
    ensures r.Err? && r.error == EndpointFailed ==> Armed(h.marker) <= Armed(old(h.marker))
    ensures r.Err? && r.error == AutoFailed ==>
      Since(old(h.trace), h.trace, ModeWrite(id, 3)) && h.Hindered()
  {
    hide ParseMarker, Armed, IsSafeId, Since, Legible, CurveWritten;
    var current := h.ReadEnable(id);
    if current.None? {
      return Err(EndpointFailed);
    }
    if current.value == CUSTOM {
      return Err(AlreadyCustom);
    }
    r := WriteFanSafetyMarker(h, id);
    if r.Err? {
      return;
    }
    r := WriteOrRestore(h, id, points);
  }

  // ---------------------------------------------------------------- recovery

  /** A recovery that succeeded left no marker and no channel under a curve that the
      marker covered, except, under the legacy entry, channels it did not discover. */
  ghost predicate Recovered(before: Moment, after: Moment, always: set<Id>) {
    after.marker == None
    && if HasLegacy(before.marker) then after.curves !! always else after.curves <= Uncovered(before)
  }

  /** Every one of the channels was asked to return to Auto. */
  ghost predicate AllAsked(before: seq<Event>, now: seq<Event>, armed: set<Id>) {
    forall id :: id in armed ==> Since(before, now, Asked(Some(id)))
  }

  /** The recovery went by a list of the fans: it asked every armed channel if all of
      them were listed, and none at all otherwise. */
  ghost predicate AskedIfListed(before: seq<Event>, now: seq<Event>, armed: set<Id>) {
    exists listed :: Since(before, now, Listed(listed))
      && if armed <= listed then AllAsked(before, now, armed) else NothingAsked(before, now)
  }

  /** What a recovery needs besides that nothing fails. */
  ghost predicate Recoverable(marker: Option<string>, always: set<Id>) {
    Armed(marker) != {} && if HasLegacy(marker) then always != {} else Armed(marker) <= always
  }

  /** Returns the armed channels to Auto and clears the marker.  Whatever fails,
      the marker stays as it was.  If an armed channel is not available, nothing is
      touched; otherwise a failed channel does not keep the others from being
      attempted, and when nothing fails and all can be found, the recovery succeeds. */
  method RestoreFanSafetyMarker(h: Host, available: set<Id>)
    returns (r: Result<(), FanError>, ghost found: set<Id>)
    requires h.Valid()
    modifies h`marker, h`enable, h`trace, h`curves, h`alive, h`failures, h`history
    ensures h.Valid() && old(h.history) <= h.history
    ensures HasLegacy(h.marker) ==> HasLegacy(old(h.marker))
    ensures h.Lives()
    ensures r.Err? ==> !IsRefusal(r.error)
    ensures h.curves <= old(h.curves)
    ensures r.Ok? ==> Recovered(old(h.Now()), h.Now(), h.always)
    ensures r.Err? && h.alive ==> h.marker == old(h.marker)
    ensures !HasLegacy(old(h.marker)) && !(Armed(old(h.marker)) <= available) ==>
      r.Err? && h.history == old(h.history) && h.enable == old(h.enable) && h.trace == old(h.trace)
    ensures !HasLegacy(old(h.marker)) && Armed(old(h.marker)) <= available ==>
      AllAsked(old(h.trace), h.trace, Armed(old(h.marker)))
      || (r == Err(MarkerUnreadable) && h.Hindered() && h.trace == old(h.trace))
    ensures r.Err? && r.error.FanUnavailable? ==>
      r.error.id in Armed(old(h.marker)) && r.error.id !in available
    ensures r.Err? && r.error.RecoveryFailed? ==>
      && h.marker == old(h.marker)
      && AllAsked(old(h.trace), h.trace, Armed(old(h.marker)))
      && h.curves * Armed(old(h.marker)) <= Elements(r.error.failed)
      && r.error.failed != [] && Elements(r.error.failed) <= Armed(old(h.marker))
    ensures r.Ok? && HasLegacy(old(h.marker)) ==> LegacyRecovered(old(h.Now()), found, h.Now())
    ensures !h.Hindered() && Recoverable(old(h.marker), h.always) && h.always <= available ==> r.Ok?
  {
    hide ParseMarker, Since, Legible;
    found := {};
    var read := ReadFanSafetyMarker(h);
    if read.Err? {
      return Err(read.error), {};
    }
    var armed := read.value;
    if armed == [] {
      return Err(MarkerEmpty), {};
    }
    if LEGACY in armed {
      r, found := RestoreAll(h);
      return;
    }
    var missing := FirstMissing(armed, available);
    if missing.Some? {
      return Err(FanUnavailable(missing.value)), {};
    }
    var failed := RestoreEach(h, armed);
    if failed != [] {
      return Err(RecoveryFailed(failed)), {};
    }
    r := ClearFanSafetyMarker(h);
  }

  /** The CPU and the GPU fan are armed and under a curve, and only the CPU fan is
      available: neither is asked to return to Auto. */
  method UnlistedFanBlocksRecovery() returns (h: Host, r: Result<(), FanError>)
    ensures fresh(h) && h.Valid() && h.history == [h.Now()]
    ensures Armed(h.marker) == h.curves == {"asus-wmi:cpu", "asus-wmi:gpu"}
    ensures r.Err? && h.trace == []
  {
    var ids := ["asus-wmi:cpu", "asus-wmi:gpu"];
    MarkerRoundTrip(ids);
    assert Elements(ids) == {"asus-wmi:cpu", "asus-wmi:gpu"};
    assert LEGACY !in Elements(ids) && "asus-wmi:gpu" !in {"asus-wmi:cpu"};
    h := new Host(Some(JoinLines(ids)), map["asus-wmi:cpu" := CUSTOM, "asus-wmi:gpu" := CUSTOM], Elements(ids), {});
    ghost var found;
    r, found := RestoreFanSafetyMarker(h, {"asus-wmi:cpu"});
  }

  /** The legacy entry stands for all channels, and is cleared after returning
      those that are discovered to Auto: every channel stays covered exactly when
      all that were under a curve were discovered. */
  method RestoreAll(h: Host) returns (r: Result<(), FanError>, ghost found: set<Id>)
    requires h.Valid() && HasLegacy(h.marker)
    modifies h`marker, h`enable, h`trace, h`curves, h`alive, h`failures, h`history
    ensures h.Valid() && old(h.history) <= h.history
    ensures h.Lives()
    ensures r.Err? ==> !IsRefusal(r.error)
    ensures h.curves <= old(h.curves)
    ensures r.Ok? ==> LegacyRecovered(old(h.Now()), found, h.Now()) && h.always <= found
    ensures r.Ok? ==> (NamedOrLegacy(h.Now()) <==> old(h.curves) <= found)
    ensures r.Err? && h.alive ==> h.marker == old(h.marker)
    ensures r.Err? ==> !r.error.RecoveryFailed? && !r.error.FanUnavailable?
    ensures r.Err? ==> h.Hindered() || h.always == {}
  {
    hide ParseMarker;
    r, found := SetFanAuto(h, None);
    if r.Err? {
      return;
    }
    r := ClearFanSafetyMarker(h);
    if r.Ok? {
      LegacyRecoveryCovers(old(h.Now()), found, h.Now());
    }
  }

  /** Attempts every armed channel and collects those that fail. */
  method RestoreEach(h: Host, armed: seq<Id>) returns (failed: seq<Id>)
    requires h.Valid()
    modifies h`enable, h`trace, h`curves, h`alive, h`failures, h`history
    ensures h.Valid() && old(h.history) <= h.history
    ensures h.Lives()
    ensures h.curves <= old(h.curves)
    ensures forall id :: id in armed && id in h.curves ==> id in failed
    ensures forall id :: id in failed ==> id in armed
    ensures AllAsked(old(h.trace), h.trace, Elements(armed))
    ensures failed != [] && Elements(armed) <= h.always ==> h.Hindered()
  {
    hide ParseMarker, Armed, Since;
    failed := [];
    ghost var start := h.trace;
    for i := 0 to |armed|
      invariant h.Valid() && old(h.history) <= h.history && h.Lives()
      invariant h.curves <= old(h.curves)
      invariant forall k :: 0 <= k < i && armed[k] in h.curves ==> armed[k] in failed
      invariant forall id :: id in failed ==> id in armed
      invariant failed != [] && Elements(armed) <= h.always ==> h.Hindered()
      invariant start <= h.trace
      invariant forall k :: 0 <= k < i ==> Since(start, h.trace, Asked(Some(armed[k])))
    {
      ghost var before, trace := failed, h.trace;
      assert armed[i] in Elements(armed);
      var reset, found := SetFanAuto(h, Some(armed[i]));
      if reset.Err? {
        failed := failed + [armed[i]];
      }
      assert forall x :: x in before ==> x in failed;
      SinceWidens(start, trace, h.trace, h.trace, Asked(Some(armed[i])));
      forall k | 0 <= k < i ensures Since(start, h.trace, Asked(Some(armed[k]))) {
        SinceWidens(start, start, trace, h.trace, Asked(Some(armed[k])));
      }
    }
  }

  function FirstMissing(armed: seq<Id>, available: set<Id>): (missing: Option<Id>)
    ensures missing.None? <==> Elements(armed) <= available
    ensures missing.Some? ==> missing.value in armed && missing.value !in available
  {
    if armed == [] then None
    else if armed[0] !in available then Some(armed[0])
    else FirstMissing(armed[1..], available)
  }

  method MarkerExists(h: Host) returns (r: Result<bool, FanError>)
    modifies h`alive, h`failures
    ensures h.Lives()
    ensures r.Ok? ==> r.value == h.marker.Some?
    ensures r.Err? ==> r.error == MarkerUnreadable && h.Hindered()
  {
    var read := h.ReadMarkerFile();
    r := if read.Err? then Err(read.error) else Ok(read.value.Some?);
  }

  /** Recovers what the marker says, if there is one.  Without a legacy entry the
      armed channels are all asked exactly when the fans could be listed and all of
      them were. */
  method RestoreFansIfArmed(h: Host) returns (r: Result<(), FanError>)
    requires h.Valid()
    modifies h`marker, h`enable, h`trace, h`curves, h`alive, h`failures, h`history
    ensures h.Valid() && old(h.history) <= h.history
    ensures HasLegacy(h.marker) ==> HasLegacy(old(h.marker))
    ensures h.Lives()
    ensures r.Err? ==> !IsRefusal(r.error)
    ensures h.curves <= old(h.curves)
    ensures r.Ok? ==> Recovered(old(h.Now()), h.Now(), h.always)
    ensures r.Err? && h.alive ==> h.marker == old(h.marker)
    ensures !HasLegacy(old(h.marker)) && Armed(old(h.marker)) != {} ==>
      AskedIfListed(old(h.trace), h.trace, Armed(old(h.marker)))
      || (r.Err? && h.Hindered() && NothingAsked(old(h.trace), h.trace))
    ensures !h.Hindered() && (old(h.marker).None? || Recoverable(old(h.marker), h.always)) ==> r.Ok?
  {
    hide ParseMarker;
    var exists_ := MarkerExists(h);
    if exists_.Err? {
      return Err(exists_.error);
    }
    if !exists_.value {
      return Ok(());
    }
    ghost var before := h.trace;
    var available := h.ListFans();
    if available.Err? {
      return Err(available.error);
    }
    ghost var listed := h.trace;
    assert listed[|before|..] == [Listed(available.value)];
    ghost var found;
    r, found := RestoreFanSafetyMarker(h, available.value);
    if !HasLegacy(old(h.marker)) && Armed(old(h.marker)) != {} {
      ListingDecides(before, listed, h.trace, available.value, Armed(old(h.marker)));
    }
  }

  lemma ListingDecides(before: seq<Event>, listed: seq<Event>, now: seq<Event>, fans: set<Id>, armed: set<Id>)
    requires listed == before + [Listed(fans)] && armed != {}
    requires if armed <= fans then now == listed || AllAsked(listed, now, armed) else now == listed
    ensures now == listed || AskedIfListed(before, now, armed)
    ensures now == listed ==> NothingAsked(before, now) && (!(armed <= fans) ==> AskedIfListed(before, now, armed))
  {
    assert listed[|before|..] == [Listed(fans)];
    if now != listed {
      var some :| some in armed;
      assert Since(listed, now, Asked(Some(some)));
      SinceWidens(before, before, listed, now, Listed(fans));
      forall id | id in armed ensures Since(before, now, Asked(Some(id))) {
        SinceWidens(before, listed, now, now, Asked(Some(id)));
      }
    } else if !(armed <= fans) {
      assert Since(before, now, Listed(fans));
    }
  }

  // ---------------------------------------------------------------- the service

  /** Mutations are refused once the shutdown flag is set. */
  method LockFanMutation(h: Host) returns (r: Result<(), FanError>)
    ensures r.Ok? <==> !h.closed
  {
    r := if h.closed then Err(ShuttingDown) else Ok(());
  }

  /** Writes the curve of a channel that is found, with the gate held open.  The channel
      must have a record as verified for writing, and the curve must keep to it. */
  method ApplyFanCurveLocked(h: Host, id: Id, points: seq<FanPoint>, record: Option<Envelope>)
    returns (r: Result<(), FanError>)
    requires h.Valid() && !h.closed && SafeToWrite(points)
    modifies h`marker, h`enable, h`trace, h`curves, h`alive, h`failures, h`history
    ensures h.Valid() && old(h.history) <= h.history && old(h.trace) <= h.trace
    ensures HasLegacy(h.marker) ==> HasLegacy(old(h.marker))
    ensures h.Lives()
    ensures r.Err? ==> !IsRefusal(r.error)
    ensures r.Ok? ==> id in h.curves && id in Armed(h.marker)
    ensures r.Ok? ==> id in old(h.enable) && old(h.enable)[id] != 1
    ensures r.Ok? ==> CurveWritten(old(h.trace), h.trace, id, points)
    ensures record.None? || !WithinEnvelope(points, record.value) ==> r.Err? && h.Untouched()
    ensures r.Err? && record.Some? && WithinEnvelope(points, record.value)
            && id in h.always && old(h.enable)[id] != 1 && IsSafeId(id) && Legible(old(h.marker)) ==>
              h.Hindered()
    ensures r.Err? && r.error != AutoFailed ==> h.curves <= old(h.curves)
    ensures r.Err? && r.error == AutoFailed ==>
      Since(old(h.trace), h.trace, ModeWrite(id, 3)) && h.Hindered()
  {
    hide ParseMarker, IsSafeId, Legible, CurveWritten, Since, Acceptable, SafeToWrite, WithinEnvelope;
    var verified := h.Discover();
    if verified.Err? || id !in verified.value {
      return Err(UnknownFan);
    }
    if record.None? {
      return Err(NotPermitted);
    }
    EnvelopeMeans(points, record.value);
    var valid := ValidateFanCurvePoints(points, RecordPolicy(record.value));
    if valid.Err? {
      return Err(NotSafe);
    }
    r := WriteCurveTransaction(h, id, points);
  }

  /** Only a curve that is safe to write is ever put in force.  Nothing is touched
      unless the request passes every check; and one that passes them all is applied
      when nothing fails. */
  method SetFanCurve(h: Host, id: Id, points: seq<FanPoint>, permitted: bool, record: Option<Envelope>,
                     authorised: bool)
    returns (r: Result<(), FanError>)
    requires h.Valid()
    modifies h`marker, h`enable, h`trace, h`curves, h`alive, h`failures, h`history
    ensures h.Valid() && old(h.history) <= h.history
    ensures HasLegacy(h.marker) ==> HasLegacy(old(h.marker))
    ensures h.Lives()
    ensures !IsSafeId(id) || !SafeToWrite(points) || !permitted || !authorised || h.closed ==>
      r.Err? && h.Untouched()
    ensures record.None? || !WithinEnvelope(points, record.value) ==> r.Err? && h.Untouched()
    ensures r.Ok? ==> id in h.curves && id in Armed(h.marker)
    ensures r.Ok? ==> exists before :: old(h.trace) <= before && CurveWritten(before, h.trace, id, points)
    ensures r == Err(ShuttingDown) ==> h.closed
    ensures r == Err(Denied) ==> !authorised
    ensures r.Ok? ==> id in old(h.enable) && old(h.enable)[id] != 1
    ensures permitted && authorised && !h.closed && !h.Hindered() && IsSafeId(id) && SafeToWrite(points) ==>
      (id in h.always && Legible(old(h.marker)) && old(h.enable)[id] != 1 ==>
         (record.Some? && WithinEnvelope(points, record.value) ==> r.Ok?))
    ensures r.Err? && r.error != AutoFailed ==> h.curves <= old(h.curves)
    ensures r.Err? && r.error == AutoFailed ==>
      Since(old(h.trace), h.trace, ModeWrite(id, 3)) && h.Hindered()
  {
    hide ParseMarker, Acceptable, SafeToWrite, WithinEnvelope, IsSafeId, Legible, CurveWritten, Since;
    if !IsSafeId(id) {
      return Err(UnsafeFanId);
    }
    var valid := ValidateFanCurvePoints(points, VERIFIED_ASUS_WRITE);
    VerifiedMeans(points);
    if valid.Err? {
      return Err(NotSafe);
    }
    if !permitted {
      return Err(NotPermitted);
    }
    var listed := h.ListFans();
    if listed.Err? || id !in listed.value {
      return Err(UnknownFan);
    }
    if !authorised {
      return Err(Denied);
    }
    var lock := LockFanMutation(h);
    if lock.Err? {
      return Err(ShuttingDown);
    }
    ghost var before := h.trace;
    r := ApplyFanCurveLocked(h, id, points, record);
    if r.Err? && r.error == AutoFailed {
      SinceWidens(old(h.trace), before, h.trace, h.trace, ModeWrite(id, 3));
    }
  }

  /** Recovers under a marker; otherwise returns all discovered channels to Auto. */
  method ResetAllFansToAuto(h: Host) returns (r: Result<(), FanError>)
    requires h.Valid()
    modifies h`marker, h`enable, h`trace, h`curves, h`alive, h`failures, h`history
    ensures h.Valid() && old(h.history) <= h.history
    ensures HasLegacy(h.marker) ==> HasLegacy(old(h.marker))
    ensures h.Lives()
    ensures h.curves <= old(h.curves)
    ensures r.Ok? ==> Recovered(old(h.Now()), h.Now(), h.always)
    ensures r.Ok? && old(h.marker).None? ==> AllReturned(old(h.trace), h.trace, h.always)
    ensures !h.Hindered() && Resettable(old(h.marker), h.always) ==> r.Ok?
    ensures r.Err? ==> !IsRefusal(r.error)
  {
    hide ParseMarker;
    var exists_ := MarkerExists(h);
    if exists_.Err? {
      return Err(exists_.error);
    }
    if exists_.value {
      r := RestoreFansIfArmed(h);
    } else {
      ghost var found;
      r, found := SetFanAuto(h, None);
    }
  }

  /** Auto was asked for, and commanded on all these channels. */
  ghost predicate AllReturned(before: seq<Event>, now: seq<Event>, channels: set<Id>) {
    && Since(before, now, Asked(None))
    && forall id :: id in channels ==> Since(before, now, ModeWrite(id, 3))
  }

  /** What resetting all fans needs besides that nothing fails. */
  ghost predicate Resettable(marker: Option<string>, always: set<Id>) {
    always != {} && (marker.None? || Recoverable(marker, always))
  }

  lemma ReturnedWidens(a: seq<Event>, b: seq<Event>, c: seq<Event>, channels: set<Id>)
    requires a <= b && AllReturned(b, c, channels)
    ensures AllReturned(a, c, channels)
  {
    SinceWidens(a, b, c, c, Asked(None));
    forall id | id in channels ensures Since(a, c, ModeWrite(id, 3)) {
      SinceWidens(a, b, c, c, ModeWrite(id, 3));
    }
  }

  /** A request to return one channel, or all of them, to Auto.  A request that is
      not authorised or comes after the gate was closed touches nothing; otherwise it
      succeeds when nothing fails and the channel can be found. */
  method SetFanAutoRequest(h: Host, target: Option<Id>, authorised: bool) returns (r: Result<(), FanError>)
    requires h.Valid()
    modifies h`marker, h`enable, h`trace, h`curves, h`alive, h`failures, h`history
    ensures h.Valid() && old(h.history) <= h.history
    ensures HasLegacy(h.marker) ==> HasLegacy(old(h.marker))
    ensures h.Lives()
    ensures h.curves <= old(h.curves)
    ensures !authorised || h.closed || (target.Some? && !IsSafeId(target.value)) ==> r.Err? && h.Untouched()
    ensures r == Err(ShuttingDown) ==> h.closed
    ensures r == Err(Denied) ==> !authorised
    ensures r.Ok? && target.Some? ==>
      target.value !in h.curves && target.value !in Armed(h.marker)
      && Armed(h.marker) == Armed(old(h.marker)) - {target.value}
      && Since(old(h.trace), h.trace, ModeWrite(target.value, 3))
    ensures r.Ok? && target.None? ==> Recovered(old(h.Now()), h.Now(), h.always)
    ensures r.Ok? && target.None? && old(h.marker).None? ==> AllReturned(old(h.trace), h.trace, h.always)
    ensures authorised && !h.closed && !h.Hindered() && target.Some? ==>
      (IsSafeId(target.value) && target.value in h.always && Legible(old(h.marker)) ==> r.Ok?)
    ensures authorised && !h.closed && !h.Hindered() && target.None? ==>
      (Resettable(old(h.marker), h.always) ==> r.Ok?)
  {
    hide ParseMarker, Legible, Armed, Since, AllReturned, Recovered;
    if target.Some? && !IsSafeId(target.value) {
      return Err(UnsafeFanId);
    }
    var safe := h.ListFans();
    if safe.Err? || safe.value == {} || (target.Some? && target.value !in safe.value) {
      return Err(NotSafe);
    }
    if !authorised {
      return Err(Denied);
    }
    var lock := LockFanMutation(h);
    if lock.Err? {
      return Err(ShuttingDown);
    }
    ghost var before := h.trace;
    if target.None? {
      r := ResetAllFansToAuto(h);
      if r.Ok? && old(h.marker).None? {
        ReturnedWidens(old(h.trace), before, h.trace, h.always);
      }
      return;
    }
    ghost var found;
    r, found := SetFanAuto(h, target);
    if r.Err? {
      return;
    }
    SinceWidens(old(h.trace), before, h.trace, h.trace, ModeWrite(target.value, 3));
    r := DisarmFanChannel(h, target.value);
  }

  /** A request to reset all fans, which like the others needs an authorisation and an
      open gate. */
  method ResetFansRequest(h: Host, authorised: bool) returns (r: Result<(), FanError>)
    requires h.Valid()
    modifies h`marker, h`enable, h`trace, h`curves, h`alive, h`failures, h`history
    ensures h.Valid() && old(h.history) <= h.history
    ensures HasLegacy(h.marker) ==> HasLegacy(old(h.marker))
    ensures h.Lives()
    ensures h.curves <= old(h.curves)
    ensures !authorised || h.closed ==> r.Err? && h.Untouched()
    ensures r == Err(ShuttingDown) ==> h.closed
    ensures r == Err(Denied) ==> !authorised
    ensures r.Ok? ==> Recovered(old(h.Now()), h.Now(), h.always)
    ensures r.Ok? && old(h.marker).None? ==> AllReturned(old(h.trace), h.trace, h.always)
    ensures authorised && !h.closed && !h.Hindered() && Resettable(old(h.marker), h.always) ==> r.Ok?
  {
    hide ParseMarker, Armed, Since, AllReturned, Recovered;
    var safe := h.ListFans();
    if safe.Err? || safe.value == {} {
      return Err(NotSafe);
    }
    if !authorised {
      return Err(Denied);
    }
    var lock := LockFanMutation(h);
    if lock.Err? {
      return Err(ShuttingDown);
    }
    ghost var before := h.trace;
    r := ResetAllFansToAuto(h);
    if r.Ok? && old(h.marker).None? {
      ReturnedWidens(old(h.trace), before, h.trace, h.always);
    }
  }

  /** Recovery on behalf of a session: never for the legacy entry, but also after the
      gate was closed. */
  method RecoverFansIfArmed(h: Host, authorised: bool) returns (r: Result<(), FanError>)
    requires h.Valid()
    modifies h`marker, h`enable, h`trace, h`curves, h`alive, h`failures, h`history
    ensures h.Valid() && old(h.history) <= h.history
    ensures HasLegacy(h.marker) ==> HasLegacy(old(h.marker))
    ensures h.Lives()
    ensures h.curves <= old(h.curves)
    ensures !authorised || HasLegacy(old(h.marker)) ==> r.Err? && h.Untouched()
    ensures r == Err(Denied) ==> !authorised
    ensures r == Err(LegacyNeedsLifecycle) ==> HasLegacy(old(h.marker))
    ensures r.Ok? ==> Recovered(old(h.Now()), h.Now(), h.always)
    ensures r.Err? && h.alive ==> h.marker == old(h.marker)
    ensures authorised && !HasLegacy(old(h.marker)) && Armed(old(h.marker)) != {} ==>
      AskedIfListed(old(h.trace), h.trace, Armed(old(h.marker)))
      || (r.Err? && h.Hindered() && NothingAsked(old(h.trace), h.trace))
    ensures authorised && !h.Hindered() && !HasLegacy(old(h.marker)) ==>
      (old(h.marker).None? || Recoverable(old(h.marker), h.always) ==> r.Ok?)
  {
    hide ParseMarker;
    if !authorised {
      return Err(Denied);
    }
    var read := ReadFanSafetyMarker(h);
    if read.Err? {
      return Err(read.error);
    }
    if LEGACY in read.value {
      return Err(LegacyNeedsLifecycle);
    }
    r := RestoreFansIfArmed(h);
  }

  /** Closes the gate for good and recovers.  Success leaves no channel under a curve
      (if the run began under the legacy entry: as long as every channel is always
      discovered), failure keeps the marker for the next start. */
  method ShutdownFans(h: Host) returns (r: Result<(), FanError>)
    requires h.Valid()
    modifies h
    ensures h.Valid() && old(h.history) <= h.history
    ensures HasLegacy(h.marker) ==> HasLegacy(old(h.marker))
    ensures (old(h.alive) || old(h.closed) ==> h.closed) && h.process == old(h.process)
    ensures h.curves <= old(h.curves)
    ensures r.Ok? ==> Recovered(old(h.Now()), h.Now(), h.always)
    ensures r.Ok? && (!HasLegacy(old(h.history)[0].marker) || h.enable.Keys <= h.always) ==> h.curves == {}
    ensures r.Err? && h.alive ==> h.marker == old(h.marker)
    ensures !HasLegacy(old(h.marker)) && Armed(old(h.marker)) != {} ==>
      AskedIfListed(old(h.trace), h.trace, Armed(old(h.marker)))
      || (r.Err? && h.Hindered() && NothingAsked(old(h.trace), h.trace))
    ensures !h.Hindered() && (old(h.marker).None? || Recoverable(old(h.marker), h.always)) ==> r.Ok?
  {
    hide ParseMarker;
    h.CloseGate();
    r := RestoreFansIfArmed(h);
    if r.Ok? && (!HasLegacy(h.history[0].marker) || h.enable.Keys <= h.always) {
      CoveredThroughout(h.history, h.always);
      assert NamedOrLegacy(h.history[|h.history| - 1]) && Armed(None) == {};
    }
  }

  /** A new process, which first tries to recover what an earlier one left behind. */
  method Start(h: Host) returns (recovered: Result<(), FanError>)
    requires h.Valid()
    modifies h
    ensures h.Valid() && old(h.history) <= h.history
    ensures HasLegacy(h.marker) ==> HasLegacy(old(h.marker))
    ensures h.curves <= old(h.curves) && !h.closed
    ensures recovered.Ok? ==> Recovered(old(h.Now()), h.Now(), h.always)
    ensures recovered.Err? && h.alive ==> h.marker == old(h.marker)
    ensures !HasLegacy(old(h.marker)) && Armed(old(h.marker)) != {} ==>
      AskedIfListed(old(h.trace), h.trace, Armed(old(h.marker)))
      || (recovered.Err? && old(h.failures) < h.failures && NothingAsked(old(h.trace), h.trace))
    ensures h.failures == old(h.failures) && (old(h.marker).None? || Recoverable(old(h.marker), h.always)) ==>
      recovered.Ok?
    ensures h.process == old(h.process) + 1
  {
    h.StartProcess();
    recovered := RestoreFansIfArmed(h);
  }

  // ---------------------------------------------------------------- whole runs

  datatype Op =
    | ApplyCurve(id: Id, points: seq<FanPoint>, permitted: bool, record: Option<Envelope>, authorised: bool)
    | Auto(target: Option<Id>, authorised: bool)
    | ResetAll(authorised: bool)
    | Recover(authorised: bool)
    | Shutdown
    | Restart

  /** One request, a shutdown, or the start of a new process after a crash. */
  method Execute(h: Host, op: Op)
    requires h.Valid()
    modifies h
    ensures h.Valid() && old(h.history) <= h.history
    ensures HasLegacy(h.marker) ==> HasLegacy(old(h.marker))
    ensures !op.Restart? ==> h.process == old(h.process)
    ensures old(h.closed) && !op.Restart? ==> h.closed && h.curves <= old(h.curves)
  {
    match op
    case ApplyCurve(id, points, permitted, record, authorised) =>
      var r := SetFanCurve(h, id, points, permitted, record, authorised);
    case Auto(target, authorised) =>
      var r := SetFanAutoRequest(h, target, authorised);
    case ResetAll(authorised) =>
      var r := ResetFansRequest(h, authorised);
    case Recover(authorised) =>
      var r := RecoverFansIfArmed(h, authorised);
    case Shutdown =>
      var r := ShutdownFans(h);
    case Restart =>
      var r := Start(h);
  }

  /** Main result: through any operations, failures, crashes and restarts, from any
      covered start:
      - once the gate is closed it stays closed until a new process starts, and at
        every moment until then only channels are under a curve that were before;
      - without a legacy entry at the start, or when every discovery finds every
        channel, each channel under a curve is covered at every moment;
      - in any case this is so exactly when nothing was under a curve any more
        whenever the legacy entry was removed. */
  method RunOperations(h: Host, ops: seq<Op>)
    requires h.Valid()
    modifies h
    ensures h.Valid() && old(h.history) <= h.history && SafeHistory(h.history, h.always)
    ensures old(h.closed) && Restart !in ops ==> h.closed && h.curves <= old(h.curves)
    ensures old(h.closed) && Restart !in ops ==> forall i :: |old(h.history)| <= i < |h.history| ==>
      h.history[i].closed && h.history[i].curves <= old(h.curves)
    ensures !HasLegacy(h.history[0].marker) || h.enable.Keys <= h.always ==> AllCovered(h.history)
    ensures AllCovered(h.history) <==> ClearedInAuto(h.history)
    ensures HasLegacy(h.marker) ==> HasLegacy(old(h.marker))
  {
    ghost var before := |h.history| - 1;
    for i := 0 to |ops|
      invariant h.Valid() && old(h.history) <= h.history
      invariant Restart !in ops ==> h.process == old(h.process)
      invariant HasLegacy(h.marker) ==> HasLegacy(old(h.marker))
    {
      Execute(h, ops[i]);
    }
    if old(h.closed) && Restart !in ops {
      forall i | before <= i < |h.history| ensures h.history[i].closed && h.history[i].curves <= old(h.curves) {
        ProcessesGoOn(h.history, h.always, before, i);
        ProcessesGoOn(h.history, h.always, i, |h.history| - 1);
        GateStaysShut(h.history, h.always, before, i);
      }
    }
    CoveredExactly(h.history, h.always);
    if !HasLegacy(h.history[0].marker) || h.enable.Keys <= h.always {
      CoveredThroughout(h.history, h.always);
    }
  }
}
