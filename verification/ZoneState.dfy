// A device's current zone, with the delay that keeps it from entering zones it only
// passes through, and the zone occupancy counts.
module ZoneState {
  import opened Core

  datatype PassThroughPolicy = PassThroughPolicy(
    delaySeconds: nat, trackedFromZones: set<string>, stationaryZonePrefix: string)
  {
    predicate ShouldDelay(zoneId: string) {
      && delaySeconds > 0
      && zoneId !in trackedFromZones
      && (stationaryZonePrefix == "" || !(stationaryZonePrefix <= zoneId))
    }

    function Delay(): nat {
      ConfiguredSeconds(delaySeconds)
    }
  }

  ghost predicate Begins(text: string, prefix: string) {
    exists rest :: text == prefix + rest
  }

  /** The zones whose entry is delayed: with a delay configured, all but those tracked from and those
      named as stationary. */
  ghost predicate Delays(policy: PassThroughPolicy, zoneId: string) {
    && policy.delaySeconds > 0
    && zoneId !in policy.trackedFromZones
    && !(policy.stationaryZonePrefix != "" && Begins(zoneId, policy.stationaryZonePrefix))
  }

  lemma DelaysExactly(policy: PassThroughPolicy, zoneId: string)
    ensures policy.ShouldDelay(zoneId) <==> Delays(policy, zoneId)
  {
    var prefix := policy.stationaryZonePrefix;
    if prefix <= zoneId {
      assert zoneId == prefix + zoneId[|prefix|..];
    }
  }

  datatype PendingZone = PendingZone(zoneId: string, confirmAt: int)

  datatype Transition = Transition(
    currentZone: Option<string>,
    enteredAt: Option<Instant>,
    lastExitedZone: Option<string>,
    exitedAt: Option<Instant>,
    pendingZone: Option<PendingZone>)

  const INITIAL := Transition(None, None, None, None, None)

  predicate StillPending(t: Transition, zoneId: string) {
    t.pendingZone.Some? && t.pendingZone.value.zoneId == zoneId
  }

  /** Leaves the current zone and enters the selected one. */
  function Switched(t: Transition, selected: Option<string>, now: Instant): Transition {
    var left := if t.currentZone.Some? then t.(lastExitedZone := t.currentZone, exitedAt := Some(now)) else t;
    left.(currentZone := selected,
          enteredAt := if selected.Some? then Some(now) else t.enteredAt,
          pendingZone := None)
  }

  function Updated(t: Transition, selected: Option<string>, now: Instant, policy: PassThroughPolicy): Transition {
    if t.currentZone == selected then t.(pendingZone := None)
    else if t.currentZone.None? && policy.ShouldDelay(selected.value) then
      if !StillPending(t, selected.value) then
        t.(pendingZone := Some(PendingZone(selected.value, now + policy.Delay())))
      else if now < t.pendingZone.value.confirmAt then t
      else Switched(t, selected, now)
    else Switched(t, selected, now)
  }

  function TransitionEvents(deviceId: string, before: Option<string>, after: Option<string>): seq<TrackingEvent> {
    if before == after then []
    else
      (if before.Some? then [ZoneExited(deviceId, before.value)] else [])
      + (if after.Some? then [ZoneEntered(deviceId, after.value)] else [])
  }

  class ZoneTransitionState {
    var currentZone: Option<string>
    var enteredAt: Option<Instant>
    var lastExitedZone: Option<string>
    var exitedAt: Option<Instant>
    var pendingZone: Option<PendingZone>

    ghost function Contents(): Transition
      reads this
    {
      Transition(currentZone, enteredAt, lastExitedZone, exitedAt, pendingZone)
    }

    constructor ()
      ensures Contents() == INITIAL
    {
      currentZone, enteredAt, lastExitedZone, exitedAt, pendingZone := None, None, None, None, None;
    }

    method Update(deviceId: string, selected: Option<string>, now: Instant, policy: PassThroughPolicy)
      returns (events: seq<TrackingEvent>)
      modifies this
      ensures Contents() == Updated(old(Contents()), selected, now, policy)
      ensures events == TransitionEvents(deviceId, old(currentZone), currentZone)
    {
      if currentZone == selected {
        pendingZone := None;
        return [];
      }
      if currentZone.None? {
        var zoneId := selected.value;
        if policy.ShouldDelay(zoneId) {
          if pendingZone.Some? && pendingZone.value.zoneId == zoneId {
            if now < pendingZone.value.confirmAt {
              return [];
            }
          } else {
            pendingZone := Some(PendingZone(zoneId, now + policy.Delay()));
            return [];
          }
        }
      }
      pendingZone := None;
      events := [];
      if currentZone.Some? {
        events := [ZoneExited(deviceId, currentZone.value)];
        lastExitedZone, exitedAt, currentZone := currentZone, Some(now), None;
      }
      if selected.Some? {
        currentZone, enteredAt := selected, Some(now);
        events := events + [ZoneEntered(deviceId, selected.value)];
      }
    }
  }

  // ---- the meaning of the delay, over whole histories ----

  datatype Selection = Selection(zone: Option<string>, at: Instant)

  function After(policy: PassThroughPolicy, h: seq<Selection>, m: nat): Transition
    requires m <= |h|
  {
    if m == 0 then INITIAL else Updated(After(policy, h, m - 1), h[m - 1].zone, h[m - 1].at, policy)
  }

  /** Selections `i` up to `m` all chose `z`, and the one before `i` did not. */
  ghost predicate UninterruptedRun(h: seq<Selection>, i: nat, m: nat, z: string)
    requires m <= |h|
  {
    && i < m
    && (forall j | i <= j < m :: h[j].zone == Some(z))
    && (i > 0 ==> h[i - 1].zone != Some(z))
  }

  /** No selection of the run before `m` came as late as the delay after its start. */
  ghost predicate NotYetDue(policy: PassThroughPolicy, h: seq<Selection>, i: nat, m: nat)
    requires i < m <= |h|
  {
    forall j | i <= j < m :: h[j].at - h[i].at < Seconds(Min(policy.delaySeconds, I64_MAX))
  }

  lemma RunStartUnique(h: seq<Selection>, i: nat, j: nat, m: nat, z: string)
    requires m <= |h| && UninterruptedRun(h, i, m, z) && UninterruptedRun(h, j, m, z)
    ensures i == j
  {
  }

  /** Outside every zone, a delayed zone is pending exactly while its run of selections lasts
      and is not yet due; a pending zone means no current zone. */
  ghost predicate PendingIsExact(policy: PassThroughPolicy, h: seq<Selection>, m: nat)
    requires m <= |h|
  {
    var t := After(policy, h, m);
    && (t.pendingZone.Some? ==>
          var z := t.pendingZone.value.zoneId;
          && t.currentZone.None? && policy.ShouldDelay(z)
          && exists i :: 0 <= i < m && UninterruptedRun(h, i, m, z) && NotYetDue(policy, h, i, m)
                         && t.pendingZone.value.confirmAt == h[i].at + Seconds(Min(policy.delaySeconds, I64_MAX)))
    && (t.currentZone.None? && m > 0 && h[m - 1].zone.Some? ==>
          policy.ShouldDelay(h[m - 1].zone.value) && StillPending(t, h[m - 1].zone.value))
  }

  lemma RunExtends(policy: PassThroughPolicy, h: seq<Selection>, k: nat, n: nat, m: nat, z: string)
    requires n < |h| && m == n + 1 && h[n].zone == Some(z) && k <= n
    requires k < n ==> UninterruptedRun(h, k, n, z) && NotYetDue(policy, h, k, n) && h[n].at - h[k].at < policy.Delay()
    requires k == n ==> (n > 0 ==> h[n - 1].zone != Some(z)) && policy.Delay() > 0
    ensures UninterruptedRun(h, k, m, z) && NotYetDue(policy, h, k, m)
  {
  }

  lemma PendingKept(policy: PassThroughPolicy, h: seq<Selection>, n: nat)
    requires n < |h| && PendingIsExact(policy, h, n)
    ensures PendingIsExact(policy, h, n + 1)
  {
    var m := n + 1;
    var t, t' := After(policy, h, n), After(policy, h, m);
    assert t' == Updated(t, h[n].zone, h[n].at, policy);
    if t'.pendingZone.Some? {
      var z := t'.pendingZone.value.zoneId;
      if StillPending(t, z) {
        var k :| 0 <= k < n && UninterruptedRun(h, k, n, z) && NotYetDue(policy, h, k, n)
                 && t.pendingZone.value.confirmAt == h[k].at + policy.Delay();
        RunExtends(policy, h, k, n, m, z);
      } else {
        RunExtends(policy, h, n, n, m, z);
      }
    }
  }

  lemma {:induction false} PendingSummarizesHistory(policy: PassThroughPolicy, h: seq<Selection>, m: nat)
    requires m <= |h|
    ensures PendingIsExact(policy, h, m)
  {
    if m > 0 {
      var n := m - 1;
      PendingSummarizesHistory(policy, h, n);
      PendingKept(policy, h, n);
    }
  }

  /** The pending zone carries the start of the run in progress. */
  lemma PendingRun(policy: PassThroughPolicy, h: seq<Selection>, n: nat, z: string, i: nat)
    requires i < n < |h| && PendingIsExact(policy, h, n) && After(policy, h, n).currentZone.None?
    requires UninterruptedRun(h, i, n + 1, z)
    ensures StillPending(After(policy, h, n), z) && NotYetDue(policy, h, i, n)
    ensures After(policy, h, n).pendingZone.value.confirmAt == h[i].at + policy.Delay()
  {
    assert h[n - 1].zone == Some(z);
    var t := After(policy, h, n);
    var k :| 0 <= k < n && UninterruptedRun(h, k, n, z) && NotYetDue(policy, h, k, n)
             && t.pendingZone.value.confirmAt == h[k].at + policy.Delay();
    assert UninterruptedRun(h, i, n, z);
    RunStartUnique(h, i, k, n, z);
  }

  /** Selection `n` is the first in its uninterrupted run, from `i` on, to come late enough. */
  ghost predicate ConfirmedBy(policy: PassThroughPolicy, h: seq<Selection>, i: nat, n: nat, z: string)
    requires n < |h|
  {
    && i < n && UninterruptedRun(h, i, n + 1, z) && NotYetDue(policy, h, i, n)
    && h[n].at - h[i].at >= Seconds(Min(policy.delaySeconds, I64_MAX))
  }

  lemma EntryMeansConfirmed(policy: PassThroughPolicy, h: seq<Selection>, n: nat, z: string)
    requires n < |h| && After(policy, h, n).currentZone.None? && policy.ShouldDelay(z) && PendingIsExact(policy, h, n)
    requires After(policy, h, n + 1).currentZone == Some(z)
    ensures exists i :: 0 <= i < n && ConfirmedBy(policy, h, i, n, z)
  {
    assert After(policy, h, n + 1) == Updated(After(policy, h, n), h[n].zone, h[n].at, policy);
    var k :| 0 <= k < n && UninterruptedRun(h, k, n, z);
    assert UninterruptedRun(h, k, n + 1, z);
    PendingRun(policy, h, n, z, k);
    assert ConfirmedBy(policy, h, k, n, z);
  }

  /** From no zone, a delayed zone is entered at selection `n` exactly when `n` is the first in
      its uninterrupted run to come at least the delay after the run began. */
  lemma DelayIsExact(policy: PassThroughPolicy, h: seq<Selection>, n: nat, z: string)
    requires n < |h| && After(policy, h, n).currentZone.None? && Delays(policy, z)
    ensures
      After(policy, h, n + 1).currentZone == Some(z) <==> exists i :: 0 <= i < n && ConfirmedBy(policy, h, i, n, z)
  {
    DelaysExactly(policy, z);
    PendingSummarizesHistory(policy, h, n);
    if After(policy, h, n + 1).currentZone == Some(z) {
      EntryMeansConfirmed(policy, h, n, z);
    }
    forall i | 0 <= i < n && ConfirmedBy(policy, h, i, n, z) ensures After(policy, h, n + 1).currentZone == Some(z) {
      assert After(policy, h, n + 1) == Updated(After(policy, h, n), h[n].zone, h[n].at, policy);
      PendingRun(policy, h, n, z, i);
    }
  }

  /** Everything else changes zone at once. */
  lemma UndelayedIsImmediate(policy: PassThroughPolicy, h: seq<Selection>, n: nat)
    requires n < |h|
    requires After(policy, h, n).currentZone.Some? || h[n].zone.None? || !Delays(policy, h[n].zone.value)
    ensures After(policy, h, n + 1).currentZone == h[n].zone
  {
    if h[n].zone.Some? {
      DelaysExactly(policy, h[n].zone.value);
    }
    assert After(policy, h, n + 1) == Updated(After(policy, h, n), h[n].zone, h[n].at, policy);
  }

  // ---- replaying the events ----

  datatype TimedEvent = TimedEvent(at: Instant, event: TrackingEvent)

  /** Replays one event; leaving a zone that is not the current one, entering a zone from inside
      another, or an event of another device, is not a possible history. */
  function ReplayOne(deviceId: string, t: Transition, e: TimedEvent): Option<Transition> {
    match e.event
    case ZoneExited(d, z) =>
      if d == deviceId && t.currentZone == Some(z) then
        Some(t.(currentZone := None, lastExitedZone := Some(z), exitedAt := Some(e.at)))
      else None
    case ZoneEntered(d, z) =>
      if d == deviceId && t.currentZone == None then Some(t.(currentZone := Some(z), enteredAt := Some(e.at))) else None
    case _ => None
  }

  function Replay(deviceId: string, t: Transition, events: seq<TimedEvent>): Option<Transition> {
    if events == [] then Some(t)
    else
      match Replay(deviceId, t, events[..|events| - 1])
      case None => None
      case Some(before) => ReplayOne(deviceId, before, events[|events| - 1])
  }

  function Stamped(at: Instant, events: seq<TrackingEvent>): seq<TimedEvent> {
    seq(|events|, i requires 0 <= i < |events| => TimedEvent(at, events[i]))
  }

  function Events(policy: PassThroughPolicy, deviceId: string, h: seq<Selection>, m: nat): seq<TimedEvent>
    requires m <= |h|
  {
    if m == 0 then []
    else
      Events(policy, deviceId, h, m - 1)
      + Stamped(h[m - 1].at,
        TransitionEvents(deviceId, After(policy, h, m - 1).currentZone, After(policy, h, m).currentZone))
  }

  lemma {:induction false} ReplayConcat(deviceId: string, t: Transition, a: seq<TimedEvent>, b: seq<TimedEvent>)
    ensures Replay(deviceId, t, a + b)
         == match Replay(deviceId, t, a) case None => None case Some(between) => Replay(deviceId, between, b)
  {
    if b == [] {
      assert a + b == a;
    } else {
      assert (a + b)[..|a + b| - 1] == a + b[..|b| - 1];
      ReplayConcat(deviceId, t, a, b[..|b| - 1]);
    }
  }

  lemma ReplayPair(deviceId: string, t: Transition, first: TimedEvent, second: TimedEvent)
    ensures Replay(deviceId, t, [first]) == ReplayOne(deviceId, t, first)
    ensures Replay(deviceId, t, [first, second])
         == match ReplayOne(deviceId, t, first)
            case None => None
            case Some(between) => ReplayOne(deviceId, between, second)
  {
    assert [first][..0] == [] && [first, second][..1] == [first];
  }

  lemma UpdateReplays(t: Transition, deviceId: string, selected: Option<string>, now: Instant,
                      policy: PassThroughPolicy)
    ensures
      var t' := Updated(t, selected, now, policy);
      Replay(deviceId, t.(pendingZone := None), Stamped(now, TransitionEvents(deviceId, t.currentZone, t'.currentZone)))
      == Some(t'.(pendingZone := None))
  {
    var t' := Updated(t, selected, now, policy);
    var bare := t.(pendingZone := None);
    if t.currentZone.Some? && t'.currentZone.Some? && t.currentZone != t'.currentZone {
      var exit, enter := ZoneExited(deviceId, t.currentZone.value), ZoneEntered(deviceId, t'.currentZone.value);
      assert TransitionEvents(deviceId, t.currentZone, t'.currentZone) == [exit, enter];
      assert Stamped(now, [exit, enter]) == [TimedEvent(now, exit), TimedEvent(now, enter)];
      ReplayPair(deviceId, bare, TimedEvent(now, exit), TimedEvent(now, enter));
    } else if t.currentZone != t'.currentZone {
      var events := TransitionEvents(deviceId, t.currentZone, t'.currentZone);
      assert |events| == 1;
      assert Stamped(now, events) == [TimedEvent(now, events[0])];
      ReplayPair(deviceId, bare, TimedEvent(now, events[0]), TimedEvent(now, events[0]));
    }
  }

  lemma ReplayKept(policy: PassThroughPolicy, deviceId: string, h: seq<Selection>, n: nat)
    requires n < |h|
    requires
      Replay(deviceId, INITIAL, Events(policy, deviceId, h, n)) == Some(After(policy, h, n).(pendingZone := None))
    ensures
      Replay(deviceId, INITIAL, Events(policy, deviceId, h, n + 1))
      == Some(After(policy, h, n + 1).(pendingZone := None))
  {
    var t := After(policy, h, n);
    UpdateReplays(t, deviceId, h[n].zone, h[n].at, policy);
    var events := TransitionEvents(deviceId, t.currentZone, After(policy, h, n + 1).currentZone);
    ReplayConcat(deviceId, INITIAL, Events(policy, deviceId, h, n), Stamped(h[n].at, events));
  }

  /** The emitted events form a possible history, and replaying it yields the current zone and
      the times and zone of the last entry and exit. */
  lemma {:induction false} EventsReplayToState(policy: PassThroughPolicy, deviceId: string, h: seq<Selection>, m: nat)
    requires m <= |h|
    ensures Replay(deviceId, INITIAL, Events(policy, deviceId, h, m)) == Some(After(policy, h, m).(pendingZone := None))
  {
    if m > 0 {
      var n := m - 1;
      EventsReplayToState(policy, deviceId, h, n);
      ReplayKept(policy, deviceId, h, n);
    }
  }

  // ---- occupancy ----

  function DevicesIn(deviceZones: map<string, string>, zoneId: string): set<string> {
    set d | d in deviceZones && deviceZones[d] == zoneId
  }

  /** One entry a zone that holds a device, with the number of devices it holds. */
  ghost predicate Tallied(counts: map<string, nat>, deviceZones: map<string, string>) {
    && (forall z :: z in counts <==> DevicesIn(deviceZones, z) != {})
    && (forall z | z in counts :: counts[z] == |DevicesIn(deviceZones, z)|)
  }

  lemma CountOneMore(counts: map<string, nat>, deviceZones: map<string, string>, d: string, z: string)
    requires Tallied(counts, deviceZones) && d !in deviceZones
    ensures Tallied(counts[z := (if z in counts then counts[z] else 0) + 1], deviceZones[d := z])
  {
    assert DevicesIn(deviceZones[d := z], z) == DevicesIn(deviceZones, z) + {d};
    forall y | y != z ensures DevicesIn(deviceZones[d := z], y) == DevicesIn(deviceZones, y) {
    }
  }

  class ZoneOccupancy {
    var deviceZones: map<string, string>

    constructor ()
      ensures deviceZones == map[]
    {
      deviceZones := map[];
    }

    method Update(deviceId: string, zoneId: Option<string>)
      modifies this
      ensures deviceZones == if zoneId.Some? then old(deviceZones)[deviceId := zoneId.value]
                             else old(deviceZones) - {deviceId}
    {
      if zoneId.Some? {
        deviceZones := deviceZones[deviceId := zoneId.value];
      } else {
        deviceZones := deviceZones - {deviceId};
      }
    }

    method Counts() returns (counts: map<string, nat>)
      ensures Tallied(counts, deviceZones)
    {
      counts := map[];
      var remaining := deviceZones.Keys;
      while remaining != {}
        invariant remaining <= deviceZones.Keys
        invariant Tallied(counts, deviceZones - remaining)
        decreases remaining
      {
        var d :| d in remaining;
        var z := deviceZones[d];
        CountOneMore(counts, deviceZones - remaining, d, z);
        assert (deviceZones - remaining)[d := z] == deviceZones - (remaining - {d});
        counts := counts[z := (if z in counts then counts[z] else 0) + 1];
        remaining := remaining - {d};
      }
      assert deviceZones - remaining == deviceZones;
    }
  }
}
