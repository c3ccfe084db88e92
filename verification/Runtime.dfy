// The scheduler as the code runs it: one object whose methods loop over accounts, snapshots
// and devices and update the state in place. Each method computes the step of the same name.
module Runtime {
  import opened Core
  import opened Order
  import opened Scheduler
  import Interval
  import SchedulerIsolation
  import Quality

  // ---- one more turn of a loop ----

  lemma OnePollMore(config: Config, s: System, due: seq<string>, answers: string -> Answer, now: Instant, i: nat)
    requires i < |due| && forall a | a in due :: a in s.accounts
    requires PollAll(config, s, due[..i], answers, now).ok
    ensures
      PollAll(config, s, due[..i + 1], answers, now)
      == Poll(config, PollAll(config, s, due[..i], answers, now).s, due[i], answers(due[i]), now)
  {
    assert due[..i + 1][..i] == due[..i];
  }

  lemma OneRefreshMore(config: Config, devices: map<string, Device>, snapshots: seq<Snapshot>, now: Instant, i: nat)
    requires i < |snapshots| && RefreshAll(config, devices, snapshots[..i], now).ok
    ensures
      RefreshAll(config, devices, snapshots[..i + 1], now)
      == RefreshOne(config, RefreshAll(config, devices, snapshots[..i], now).devices, snapshots[i], now)
  {
    assert snapshots[..i + 1][..i] == snapshots[..i];
  }

  lemma OneIdMore(snapshots: seq<Snapshot>, i: nat)
    requires i < |snapshots|
    ensures SnapshotIds(snapshots[..i + 1]) == SnapshotIds(snapshots[..i]) + {snapshots[i].id}
  {
    assert snapshots[..i + 1] == snapshots[..i] + [snapshots[i]];
  }

  lemma OneVisitMore(snapshot: Snapshot, base: Interval.Decision, paused: bool, now: Instant, zones: seq<string>,
                     start: Visit, i: nat)
    requires i < |zones|
    ensures
      VisitZones(snapshot, base, paused, now, zones[..i + 1], start)
      == VisitZone(snapshot, base, paused, now, zones[i], VisitZones(snapshot, base, paused, now, zones[..i], start))
  {
    assert zones[..i + 1][..i] == zones[..i];
  }

  /** One of the first `i` listed devices is known and due later. */
  ghost predicate LaterAmong(devices: map<string, Device>, order: seq<string>, i: nat, at: Instant)
    requires i <= |order|
  {
    exists k | 0 <= k < i :: order[k] in devices && Later(devices[order[k]], at)
  }

  lemma OneMoreLater(devices: map<string, Device>, order: seq<string>, i: nat, m: nat, at: Instant)
    requires i < |order| && m == i + 1
    ensures
      LaterAmong(devices, order, m, at)
      <==> LaterAmong(devices, order, i, at) || (order[i] in devices && Later(devices[order[i]], at))
  {
  }

  lemma AllLater(devices: map<string, Device>, ids: set<string>, order: seq<string>, at: Instant)
    requires forall d :: d in order <==> d in ids
    ensures LaterAmong(devices, order, |order|, at) <==> AnyLater(devices, ids, at)
  {
    if AnyLater(devices, ids, at) {
      var d :| d in ids && d in devices && Later(devices[d], at);
      assert d in order;
    }
  }

  /** `after` is `before` with the first `i` listed devices changed. */
  ghost predicate ChangedUpTo(before: map<string, Device>, after: map<string, Device>, order: seq<string>, i: nat,
                              f: Device -> Device)
    requires i <= |order|
  {
    && after.Keys == before.Keys
    && forall d | d in after :: after[d] == if d in order[..i] then f(before[d]) else before[d]
  }

  lemma OneMoreChanged(before: map<string, Device>, after: map<string, Device>, order: seq<string>, i: nat, m: nat,
                       f: Device -> Device, again: map<string, Device>)
    requires i < |order| && m == i + 1 && order[i] !in order[..i] && ChangedUpTo(before, after, order, i, f)
    requires again == if order[i] in before then after[order[i] := f(before[order[i]])] else after
    ensures ChangedUpTo(before, again, order, m, f)
  {
    assert order[..m] == order[..i] + [order[i]];
  }

  lemma AllChanged(before: map<string, Device>, after: map<string, Device>, ids: set<string>, order: seq<string>,
                   f: Device -> Device)
    requires forall d :: d in order <==> d in ids
    requires ChangedUpTo(before, after, order, |order|, f)
    ensures after == UpdateDevices(before, ids, f)
  {
    assert order[..|order|] == order;
  }

  lemma StillAscending(order: seq<string>, due: seq<string>, i: nat)
    requires StrictlyAscending(order) && StrictlyAscending(due) && i < |order|
    requires forall x | x in due :: x in order[..i]
    ensures StrictlyAscending(due + [order[i]])
  {
    forall x | x in due ensures StringLe(x, order[i]) && x != order[i] {
      var k :| 0 <= k < i && order[k] == x;
    }
  }

  class TrackingRuntime {
    const config: Config
    var accounts: map<string, Account>
    var entries: map<string, Entry>
    var devices: map<string, Device>
    var saved: Durable
    ghost var log: seq<Note>

    ghost function Contents(): System
      reads this
    {
      System(accounts, Durable(entries, devices), saved, log)
    }

    constructor (config: Config, state: Durable)
      ensures Contents() == Loaded(state) && this.config == config
    {
      this.config := config;
      accounts, saved, log := map[], state, [];
      entries, devices := state.entries, state.devices;
    }

    // ---- loops over devices ----

    /** Applies `f` to each listed device that is known. */
    method UpdateListed(ids: set<string>, f: Device -> Device)
      modifies this`devices
      ensures devices == UpdateDevices(old(devices), ids, f)
    {
      var order := Ascending(ids);
      AscendingIsStrict(ids);
      for i := 0 to |order|
        invariant ChangedUpTo(old(devices), devices, order, i, f)
      {
        assert order[i] !in order[..i];
        ghost var before := devices;
        if order[i] in devices {
          devices := devices[order[i] := f(devices[order[i]])];
        }
        OneMoreChanged(old(devices), before, order, i, i + 1, f, devices);
      }
      AllChanged(old(devices), devices, ids, order, f);
    }

    /** Gives each listed device a state if it has none. */
    method AddMissing(ids: set<string>)
      modifies this`devices
      ensures devices == WithDevices(old(devices), ids)
    {
      var order := Ascending(ids);
      for i := 0 to |order|
        invariant devices.Keys == old(devices).Keys + set d | d in order[..i]
        invariant forall d | d in devices :: devices[d] == if d in old(devices) then old(devices)[d] else NEW_DEVICE
      {
        if order[i] !in devices {
          devices := devices[order[i] := NEW_DEVICE];
        }
      }
      assert order[..|order|] == order;
    }

    method LargestErrorCount(ids: set<string>) returns (count: nat)
      ensures count == MaxErrors(Ascending(ids), devices)
    {
      var order := Ascending(ids);
      count := 0;
      for i := 0 to |order|
        invariant count == MaxErrors(order[..i], devices)
      {
        assert order[..i + 1][..i] == order[..i];
        if order[i] in devices {
          count := Max(count, devices[order[i]].errorCount);
        }
      }
      assert order[..|order|] == order;
    }

    method FirstUpdate(ids: set<string>) returns (first: Option<Instant>)
      ensures first == EarliestUpdate(Ascending(ids), devices)
    {
      var order := Ascending(ids);
      first := None;
      for i := 0 to |order|
        invariant first == EarliestUpdate(order[..i], devices)
      {
        assert order[..i + 1][..i] == order[..i];
        if order[i] in devices {
          var next := devices[order[i]].nextUpdateAt;
          if next.Some? && (first.None? || next.value < first.value) {
            first := next;
          }
        }
      }
      assert order[..|order|] == order;
    }

    // ---- registering ----

    method RegisterAccount(a: string, configured: set<string>)
      modifies this
      ensures Contents() == Register(old(Contents()), a, configured)
    {
      var persisted := if a in entries then entries[a] else Entry({}, 0, None);
      var ids := if configured == {} then persisted.deviceIds else configured;
      AddMissing(ids);
      var largest := LargestErrorCount(ids);
      var errorCount := Max(largest, persisted.errorCount);
      var next := MIN_UTC;
      if persisted.nextDiscoveryAt.Some? {
        next := persisted.nextDiscoveryAt.value;
      } else if errorCount > 0 {
        var first := FirstUpdate(ids);
        next := first.GetOr(MIN_UTC);
      }
      entries := entries[a := Entry(ids, errorCount, if next != MIN_UTC then Some(next) else None)];
      accounts := accounts[a := Account(if configured != {} then Some(configured) else None, ids, next, errorCount)];
    }

    // ---- refreshing ----

    /** Decides about one tracked zone: notes its deadline and the shortest wait so far, unless
        no interval can be decided for it. */
    method VisitTrack(snapshot: Snapshot, base: Interval.Decision, paused: bool, now: Instant, zone: string,
                      known: map<string, Option<Instant>>, soFar: nat)
      returns (tracks: map<string, Option<Instant>>, seconds: nat, ok: bool)
      requires zone in snapshot.targets
      ensures Visit(tracks, seconds, ok) == VisitZone(snapshot, base, paused, now, zone, Visit(known, soFar, true))
    {
      tracks, seconds, ok := known, soFar, true;
      if zone !in tracks {
        tracks := tracks[zone := None];
      }
      var target := Ok(base);
      if snapshot.closestZone != Some(zone) {
        target := Interval.Determine(snapshot.targets[zone]);
      }
      if target.Err? {
        ok := false;
        assert tracks == known[zone := if zone in known then known[zone] else None];
        return;
      }
      seconds := Min(seconds, target.value.seconds);
      if !paused {
        tracks := tracks[zone := Some(DeadlineAfter(now, target.value.seconds))];
      }
      assert tracks == known[zone := tracks[zone]];
    }

    /** Decides about the tracked zones in turn, stopping at one that cannot be decided. */
    method VisitTracks(snapshot: Snapshot, base: Interval.Decision, paused: bool, now: Instant,
                       known: map<string, Option<Instant>>)
      returns (tracks: map<string, Option<Instant>>, seconds: nat, ok: bool)
      ensures
        Visit(tracks, seconds, ok)
        == VisitZones(snapshot, base, paused, now, Ascending(config.trackedFromZones), Visit(known, base.seconds, true))
    {
      tracks, seconds, ok := known, base.seconds, true;
      ghost var start := Visit(known, base.seconds, true);
      var zones := Ascending(config.trackedFromZones);
      for i := 0 to |zones|
        invariant Visit(tracks, seconds, true) == VisitZones(snapshot, base, paused, now, zones[..i], start)
      {
        OneVisitMore(snapshot, base, paused, now, zones, start, i);
        if zones[i] in snapshot.targets {
          tracks, seconds, ok := VisitTrack(snapshot, base, paused, now, zones[i], tracks, seconds);
          if !ok {
            VisitsStop(snapshot, base, paused, now, zones, start, i + 1);
            return;
          }
        }
      }
      assert zones[..|zones|] == zones;
    }

    /** Sets the deadline of a device whose zones have been visited, and of its tracks too when
        it is offline. */
    method SetDeadline(device: Device, snapshot: Snapshot, tracks: map<string, Option<Instant>>, shortest: nat,
                       now: Instant)
      returns (after: Device)
      ensures after == Rescheduled(device, snapshot, tracks, shortest, now)
    {
      var seconds := shortest;
      if snapshot.offline {
        seconds := Interval.OfflineSeconds(snapshot.locationAgeSeconds.GetOr(U64_MAX));
      }
      after := device.(tracks := tracks);
      if !after.paused {
        after := after.(nextUpdateAt := Some(DeadlineAfter(now, seconds)));
        if snapshot.offline {
          after := after.(tracks := AllAt(tracks, after.nextUpdateAt));
        }
      }
    }

    /** Decides about a device from a snapshot: its tracked zones, then its own deadline. */
    method DecideDevice(device: Device, snapshot: Snapshot, now: Instant) returns (after: Device, ok: bool)
      ensures (after, ok) == RefreshDevice(config, device, snapshot, now)
    {
      after, ok := device, false;
      if snapshot.location.Some? {
        // The verdict itself is an input of the later stages; only its failure matters here.
        if !Quality.Judgeable(config.gpsThresholdMeters, snapshot.location.value) {
          return;
        }
      }
      if snapshot.stageFailed {
        return;
      }
      var decided := Interval.Determine(snapshot.base);
      if decided.Err? {
        return;
      }
      var tracks, seconds, visited := VisitTracks(snapshot, decided.value, device.paused, now,
                                                  Restrict(device.tracks, config.trackedFromZones));
      if visited {
        after := SetDeadline(device, snapshot, tracks, seconds, now);
        ok := snapshot.sinkOk;
      } else {
        after := device.(tracks := tracks);
      }
    }

    /** Refreshes one device in place, first giving it a state if it has none. */
    method RefreshSnapshot(snapshot: Snapshot, now: Instant) returns (ok: bool)
      modifies this`devices
      ensures Refresh(devices, ok) == RefreshOne(config, old(devices), snapshot, now)
    {
      if snapshot.id !in devices {
        devices := devices[snapshot.id := NEW_DEVICE];
      }
      var after: Device;
      after, ok := DecideDevice(devices[snapshot.id], snapshot, now);
      devices := devices[snapshot.id := after];
      assert devices == old(devices)[snapshot.id := after];
    }

    /** Refreshes the devices of one answer in turn, stopping at the first that fails. */
    method RefreshSnapshots(snapshots: seq<Snapshot>, now: Instant) returns (refreshed: set<string>, ok: bool)
      modifies this`devices
      ensures Refresh(devices, ok) == RefreshAll(config, old(devices), snapshots, now)
      ensures ok ==> refreshed == SnapshotIds(snapshots)
    {
      refreshed, ok := {}, true;
      for i := 0 to |snapshots|
        invariant Refresh(devices, true) == RefreshAll(config, old(devices), snapshots[..i], now)
        invariant refreshed == SnapshotIds(snapshots[..i])
      {
        OneRefreshMore(config, old(devices), snapshots, now, i);
        OneIdMore(snapshots, i);
        refreshed := refreshed + {snapshots[i].id};
        ok := RefreshSnapshot(snapshots[i], now);
        if !ok {
          RefreshesStop(config, old(devices), snapshots, now, i + 1);
          return;
        }
      }
      assert snapshots[..|snapshots|] == snapshots;
    }

    /** Clears every device's nearby group, then enters the groups found. */
    method Regroup(groups: map<string, nat>)
      modifies this`devices
      ensures devices == Regrouped(old(devices), groups)
    {
      UpdateListed(devices.Keys, (device: Device) => device.(nearbyGroup := None));
      EnterGroups(groups);
    }

    method EnterGroups(groups: map<string, nat>)
      modifies this`devices
      ensures
        devices == map d | d in old(devices) ::
                     if d in groups then old(devices)[d].(nearbyGroup := Some(groups[d])) else old(devices)[d]
    {
      var order := Ascending(groups.Keys);
      AscendingIsStrict(groups.Keys);
      for i := 0 to |order|
        invariant devices.Keys == old(devices).Keys
        invariant forall d | d in devices ::
                    devices[d]
                    == if d in order[..i] then old(devices)[d].(nearbyGroup := Some(groups[d])) else old(devices)[d]
      {
        assert order[i] !in order[..i];
        if order[i] in devices {
          devices := devices[order[i] := devices[order[i]].(nearbyGroup := Some(groups[order[i]]))];
        }
      }
      assert order[..|order|] == order;
    }

    /** Forgets the errors of the listed devices, and gives those without a deadline the default
        one. A deadline that is there is not moved. */
    method SettleDevices(ids: set<string>, fallback: Instant)
      modifies this`devices
      ensures devices == UpdateDevices(old(devices), ids, Settled(fallback))
      ensures
        forall d | d in devices ::
          devices[d]
          == if d !in ids then old(devices)[d]
             else if old(devices)[d].nextUpdateAt.Some? then old(devices)[d].(errorCount := 0)
             else old(devices)[d].(errorCount := 0, nextUpdateAt := Some(fallback))
    {
      UpdateListed(ids, Settled(fallback));
    }

    /** The part of a refresh that settles the account it was made for. */
    method FinishAccount(a: string, refreshed: set<string>, now: Instant)
      requires a in accounts
      modifies this
      ensures Contents() == FinishPoll(config, old(Contents()), a, refreshed, now)
    {
      var account := accounts[a];
      var fallback: Instant := now + config.defaultInterval;
      var ids := account.configured.GetOr(refreshed);
      SettleDevices(ids, fallback);
      var first := FirstUpdate(ids);
      account := account.(deviceIds := ids, errorCount := 0, nextDiscoveryAt := first.GetOr(fallback));
      assert account == Finished(accounts[a], ids, devices, fallback);
      accounts := accounts[a := account];
      entries := entries[a := Entry(ids, 0, Some(account.nextDiscoveryAt))];
    }

    // ---- polling ----

    /** What a failed poll does to its account and the account's devices. */
    method PenalizeAccount(a: string, now: Instant)
      requires a in accounts
      modifies this
      ensures Contents() == FailPoll(old(Contents()), a, now)
    {
      var account := accounts[a];
      var errorCount := IncrementU32(account.errorCount);
      var until: Instant := now + Seconds(Interval.RetrySeconds(errorCount));
      accounts := accounts[a := account.(errorCount := errorCount, nextDiscoveryAt := until)];
      UpdateListed(account.deviceIds, Penalized(errorCount, until));
      entries := entries[a := Entry(account.deviceIds, errorCount, Some(until))];
      log := log + [Polled(a, now, true)];
    }

    method ApplyAccountRefresh(a: string, snapshots: seq<Snapshot>, groups: map<string, nat>, now: Instant)
      returns (ok: bool)
      requires a in accounts
      modifies this
      ensures Outcome(Contents(), ok) == SucceedPoll(config, old(Contents()), a, snapshots, groups, now)
    {
      log := log + [Polled(a, now, false)];
      var refreshed: set<string>;
      refreshed, ok := RefreshSnapshots(Relevant(accounts[a].configured, snapshots), now);
      if ok {
        Regroup(groups);
        FinishAccount(a, refreshed, now);
      }
    }

    /** The accounts due now, in order. */
    method CollectDue(now: Instant) returns (due: seq<string>)
      ensures due == Ascending(DueAccounts(config, Contents(), now))
    {
      var order := Ascending(accounts.Keys);
      AscendingIsStrict(accounts.Keys);
      due := [];
      for i := 0 to |order|
        invariant StrictlyAscending(due)
        invariant forall x :: x in due <==> x in order[..i] && IsDue(config, accounts[x], devices, now)
      {
        if IsDue(config, accounts[order[i]], devices, now) {
          StillAscending(order, due, i);
          due := due + [order[i]];
        }
      }
      assert order[..|order|] == order;
      AscendingUnique(due, DueAccounts(config, Contents(), now));
    }

    /** One decision tick. It stops without saving when the event sink or a refresh fails. */
    method RunTick(now: Instant, answers: string -> Answer, storeOk: bool) returns (ok: bool)
      modifies this
      ensures Contents() == Tick(config, old(Contents()), now, answers, storeOk)
      ensures ok <==> storeOk && SchedulerIsolation.AllUsable(config, old(Contents()), now, answers)
    {
      ghost var start := Contents();
      SchedulerIsolation.TickCompletesExactly(config, start, now, answers);
      var due := CollectDue(now);
      for i := 0 to |due|
        invariant accounts.Keys == start.accounts.Keys && forall a | a in due :: a in accounts
        invariant Outcome(Contents(), true) == PollAll(config, start, due[..i], answers, now)
      {
        OnePollMore(config, start, due, answers, now, i);
        match answers(due[i]) {
          case Failure(sinkOk) =>
            PenalizeAccount(due[i], now);
            ok := sinkOk;
          case Found(snapshots, groups) =>
            ok := ApplyAccountRefresh(due[i], snapshots, groups, now);
        }
        if !ok {
          PollsStop(config, start, due, answers, now, i + 1);
          return;
        }
      }
      assert due[..|due|] == due;
      if storeOk {
        saved := Durable(entries, devices);
      }
      ok := storeOk;
    }

    // ---- requests ----

    /** Announces what the operation did and saves the state, as far as the sink and the store
        let it. */
    method Finish(io: Io) returns (r: Result<(), RuntimeError>)
      modifies this`saved
      ensures saved == if io.sinkOk && io.storeOk then Durable(entries, devices) else old(saved)
      ensures r == Ending(io) && (r.Ok? <==> io.sinkOk && io.storeOk)
      ensures r == Err(EventFailure) <==> !io.sinkOk
    {
      if !io.sinkOk {
        return Err(EventFailure);
      }
      if !io.storeOk {
        return Err(StoreFailure);
      }
      saved := Durable(entries, devices);
      r := Ok(());
    }

    /** Changes the selected devices, or every device, unless the selected one is unknown. */
    method AmendSelected(device: Option<string>, f: Device -> Device, io: Io) returns (r: Result<(), RuntimeError>)
      modifies this
      ensures Contents() == Amend(old(Contents()), device, f, io)
      ensures
        r == if KnownDevice(old(devices), device) then Ending(io) else Err(UnknownDevice(device.value))
    {
      if device.Some? && device.value !in devices {
        return Err(UnknownDevice(device.value));
      }
      UpdateListed(Selected(devices, device), f);
      r := Finish(io);
    }

    method Pause(device: Option<string>, io: Io) returns (r: Result<(), RuntimeError>)
      modifies this
      ensures Contents() == Amend(old(Contents()), device, Pausing(), io)
      ensures
        r == if KnownDevice(old(devices), device) then Ending(io) else Err(UnknownDevice(device.value))
      ensures accounts == old(accounts) && entries == old(entries) && devices.Keys == old(devices).Keys
      ensures
        forall d | d in devices ::
          devices[d] == if device.None? || device.value == d then old(devices)[d].(paused := true) else old(devices)[d]
    {
      r := AmendSelected(device, Pausing(), io);
    }

    method Resume(device: Option<string>, now: Instant, io: Io) returns (r: Result<(), RuntimeError>)
      modifies this
      ensures Contents() == Amend(old(Contents()), device, Resuming(now), io)
      ensures
        r == if KnownDevice(old(devices), device) then Ending(io) else Err(UnknownDevice(device.value))
      ensures accounts == old(accounts) && entries == old(entries) && devices.Keys == old(devices).Keys
      ensures
        forall d | d in devices ::
          devices[d]
          == if device.None? || device.value == d then old(devices)[d].(paused := false, nextUpdateAt := Some(now))
             else old(devices)[d]
    {
      r := AmendSelected(device, Resuming(now), io);
    }

    method Schedule(device: string, at: Instant, io: Io) returns (r: Result<(), RuntimeError>)
      modifies this
      ensures Contents() == Amend(old(Contents()), Some(device), Scheduling(at), io)
      ensures r == if device in old(devices) then Ending(io) else Err(UnknownDevice(device))
      ensures accounts == old(accounts) && entries == old(entries) && devices.Keys == old(devices).Keys
      ensures
        forall d | d in devices ::
          devices[d] == if d == device then old(devices)[d].(nextUpdateAt := Some(at)) else old(devices)[d]
    {
      r := AmendSelected(Some(device), Scheduling(at), io);
    }

    method Locate(a: string, now: Instant, io: Io) returns (r: Result<(), RuntimeError>)
      modifies this
      ensures Contents() == LocateNow(old(Contents()), a, now, io)
      ensures r == if a in old(accounts) then Ending(io) else Err(UnknownAccount(a))
      ensures
        a in old(accounts) ==>
          && accounts == old(accounts)[a := old(accounts)[a].(nextDiscoveryAt := now)]
          && devices.Keys == old(devices).Keys
          && (forall d | d in devices ::
                devices[d] == if d in old(accounts)[a].deviceIds then old(devices)[d].(nextUpdateAt := Some(now))
                              else old(devices)[d])
          && entries == old(entries)[a := entries[a]] && entries[a].nextDiscoveryAt == Some(now)
          && (a in old(entries) ==> entries[a] == old(entries)[a].(nextDiscoveryAt := Some(now)))
    {
      if a !in accounts {
        return Err(UnknownAccount(a));
      }
      accounts := accounts[a := accounts[a].(nextDiscoveryAt := now)];
      UpdateListed(accounts[a].deviceIds, Scheduling(now));
      var entry := if a in entries then entries[a] else Entry({}, 0, None);
      entries := entries[a := entry.(nextDiscoveryAt := Some(now))];
      log := log + [Located(a, now)];
      r := Finish(io);
    }

    // ---- external updates ----

    /** Brings one companion forward, if it is known and due later. */
    method BringOneForward(d: string, at: Instant) returns (later: bool)
      modifies this`devices
      ensures later <==> d in old(devices) && Later(old(devices)[d], at)
      ensures
        devices == if d in old(devices) then old(devices)[d := BroughtForward(at)(old(devices)[d])] else old(devices)
    {
      later := false;
      if d in devices {
        var device := devices[d];
        if !device.paused && !(device.nextUpdateAt.Some? && device.nextUpdateAt.value <= at) {
          device := device.(nextUpdateAt := Some(at), tracks := AllAt(device.tracks, Some(at)));
          later := true;
        }
        devices := devices[d := device];
      }
    }

    /** Brings the companions of a device that left a zone forward, and tells whether any of
        them had to be. */
    method BringForward(companions: set<string>, at: Instant) returns (announced: bool)
      modifies this`devices
      ensures devices == UpdateDevices(old(devices), companions, BroughtForward(at))
      ensures announced == AnyLater(old(devices), companions, at)
    {
      announced := false;
      var order := Ascending(companions);
      AscendingIsStrict(companions);
      for i := 0 to |order|
        invariant ChangedUpTo(old(devices), devices, order, i, BroughtForward(at))
        invariant announced <==> LaterAmong(old(devices), order, i, at)
      {
        assert order[i] !in order[..i];
        ghost var before := devices;
        OneMoreLater(old(devices), order, i, i + 1, at);
        var later := BringOneForward(order[i], at);
        OneMoreChanged(old(devices), before, order, i, i + 1, BroughtForward(at), devices);
        announced := announced || later;
      }
      AllLater(old(devices), companions, order, at);
      AllChanged(old(devices), devices, companions, order, BroughtForward(at));
    }

    method ApplyExternalUpdate(snapshot: Snapshot, zoneExit: bool, groups: map<string, nat>, io: Io, now: Instant)
      returns (ok: bool)
      modifies this
      ensures Contents() == External(config, old(Contents()), snapshot, zoneExit, groups, io, now)
      ensures
        ok <==> SchedulerIsolation.Refreshable(config, snapshot) && io.storeOk
                && (SchedulerIsolation.CompanionsLater(old(devices), snapshot.id, zoneExit, now) ==> io.sinkOk)
    {
      SchedulerIsolation.ExternalCompletesExactly(config, devices, snapshot, zoneExit, groups, io.sinkOk, now);
      var companions := Companions(devices, snapshot.id, zoneExit);
      ok := RefreshSnapshot(snapshot, now);
      if !ok {
        return;
      }
      Regroup(groups);
      var announced := BringForward(companions, now + Seconds(EXIT_DELAY_SECONDS));
      ok := (announced ==> io.sinkOk) && io.storeOk;
      if ok {
        saved := Durable(entries, devices);
      }
    }
  }
}
