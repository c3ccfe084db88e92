// The scheduler's steps: which accounts are polled, what a poll does to the deadlines, and
// how the in-memory accounts are mirrored in the durable state. Provider answers, event-sink
// outcomes and the inputs of the interval policy are arbitrary.
module Scheduler {
  import opened Core
  import opened Order
  import Interval
  import Quality

  /** The durations are in nanoseconds. */
  datatype Config = Config(
    prefetch: nat, defaultInterval: nat, trackedFromZones: set<string>, gpsThresholdMeters: real)

  /** The scheduling part of a device's durable state; `tracks` holds a deadline per zone. */
  datatype Device = Device(
    nextUpdateAt: Option<Instant>, paused: bool, errorCount: nat, tracks: map<string, Option<Instant>>,
    nearbyGroup: Option<nat>)

  const NEW_DEVICE := Device(None, false, 0, map[], None)

  /** An account in memory. */
  datatype Account = Account(
    configured: Option<set<string>>, deviceIds: set<string>, nextDiscoveryAt: Instant, errorCount: nat)

  /** The same account in the durable state. */
  datatype Entry = Entry(deviceIds: set<string>, errorCount: nat, nextDiscoveryAt: Option<Instant>)

  datatype Durable = Durable(entries: map<string, Entry>, devices: map<string, Device>)

  /** What happened to accounts, for stating the backoff. */
  datatype Note = Polled(account: string, at: Instant, failed: bool) | Located(account: string, at: Instant)

  datatype System = System(accounts: map<string, Account>, state: Durable, saved: Durable, log: seq<Note>)

  /** A system that has just loaded its state, with no accounts registered yet. */
  function Loaded(state: Durable): System {
    System(map[], state, state, [])
  }

  const BLANK := Loaded(Durable(map[], map[]))

  /** Whether the event sink accepts what an operation announces, and the store its new state. */
  datatype Io = Io(sinkOk: bool, storeOk: bool)

  datatype RuntimeError =
    | UnknownDevice(deviceId: string)
    | UnknownAccount(account: string)
    | EventFailure
    | StoreFailure

  /** How an operation that has changed the state ends: it announces the change, then saves. */
  function Ending(io: Io): Result<(), RuntimeError> {
    if !io.sinkOk then Err(EventFailure) else if !io.storeOk then Err(StoreFailure) else Ok(())
  }

  // ---- devices ----

  function UpdateDevices(devices: map<string, Device>, ids: set<string>, f: Device -> Device): map<string, Device> {
    map d | d in devices :: if d in ids then f(devices[d]) else devices[d]
  }

  function WithDevices(devices: map<string, Device>, ids: set<string>): map<string, Device> {
    map d | d in devices.Keys + ids :: if d in devices then devices[d] else NEW_DEVICE
  }

  /** The largest error count of the listed devices. */
  function MaxErrors(ids: seq<string>, devices: map<string, Device>): nat {
    if ids == [] then 0
    else
      var rest := MaxErrors(ids[..|ids| - 1], devices);
      var d := ids[|ids| - 1];
      if d in devices then Max(rest, devices[d].errorCount) else rest
  }

  function Earlier(a: Option<Instant>, b: Option<Instant>): Option<Instant> {
    if a.None? then b else if b.None? then a else if a.value <= b.value then a else b
  }

  /** The earliest deadline of the listed devices. */
  function EarliestUpdate(ids: seq<string>, devices: map<string, Device>): Option<Instant> {
    if ids == [] then None
    else
      var rest := EarliestUpdate(ids[..|ids| - 1], devices);
      var d := ids[|ids| - 1];
      if d in devices then Earlier(rest, devices[d].nextUpdateAt) else rest
  }

  lemma {:induction false} MaxErrorsBounds(ids: seq<string>, devices: map<string, Device>)
    ensures forall d | d in ids && d in devices :: devices[d].errorCount <= MaxErrors(ids, devices)
    ensures MaxErrors(ids, devices) > 0 ==>
              exists d :: d in ids && d in devices && devices[d].errorCount == MaxErrors(ids, devices)
  {
    if ids != [] {
      var front, last := ids[..|ids| - 1], ids[|ids| - 1];
      assert ids == front + [last];
      MaxErrorsBounds(front, devices);
    }
  }

  lemma {:induction false} EarliestBounds(ids: seq<string>, devices: map<string, Device>)
    ensures
      var earliest := EarliestUpdate(ids, devices);
      && (forall d | d in ids && d in devices && devices[d].nextUpdateAt.Some? ::
            earliest.Some? && earliest.value <= devices[d].nextUpdateAt.value)
      && (earliest.Some? ==> exists d :: d in ids && d in devices && devices[d].nextUpdateAt == earliest)
  {
    if ids != [] {
      var front, last := ids[..|ids| - 1], ids[|ids| - 1];
      assert ids == front + [last];
      EarliestBounds(front, devices);
    }
  }

  // ---- registering ----

  function PersistedEntry(state: Durable, account: string): Entry {
    if account in state.entries then state.entries[account] else Entry({}, 0, None)
  }

  function RegisteredIds(state: Durable, account: string, configured: set<string>): set<string> {
    if configured == {} then PersistedEntry(state, account).deviceIds else configured
  }

  function RegisteredAccount(state: Durable, account: string, configured: set<string>): Account {
    var persisted := PersistedEntry(state, account);
    var ids := RegisteredIds(state, account, configured);
    var devices := WithDevices(state.devices, ids);
    var errorCount := Max(MaxErrors(Ascending(ids), devices), persisted.errorCount);
    var fallback := if errorCount > 0 then EarliestUpdate(Ascending(ids), devices).GetOr(MIN_UTC) else MIN_UTC;
    Account(if configured == {} then None else Some(configured), ids,
            persisted.nextDiscoveryAt.GetOr(fallback), errorCount)
  }

  function EntryOf(account: Account): Entry {
    Entry(account.deviceIds, account.errorCount,
          if account.nextDiscoveryAt == MIN_UTC then None else Some(account.nextDiscoveryAt))
  }

  function Register(s: System, account: string, configured: set<string>): System {
    var registered := RegisteredAccount(s.state, account, configured);
    s.(accounts := s.accounts[account := registered],
       state := Durable(s.state.entries[account := EntryOf(registered)],
                        WithDevices(s.state.devices, registered.deviceIds)))
  }

  // ---- deciding whom to poll ----

  predicate DeviceDue(device: Device, dueBefore: Instant) {
    !device.paused && (device.nextUpdateAt.None? || device.nextUpdateAt.value <= dueBefore)
  }

  predicate IsDue(config: Config, account: Account, devices: map<string, Device>, now: Instant) {
    var dueBefore := now + config.prefetch;
    if account.errorCount > 0 then account.nextDiscoveryAt <= now
    else if account.deviceIds == {} then account.nextDiscoveryAt <= dueBefore
    else exists d | d in account.deviceIds :: d in devices && DeviceDue(devices[d], dueBefore)
  }

  function DueAccounts(config: Config, s: System, now: Instant): set<string> {
    set a | a in s.accounts && IsDue(config, s.accounts[a], s.state.devices, now)
  }

  // ---- a failed poll ----

  function Penalized(errorCount: nat, until: Instant): Device -> Device {
    (device: Device) => device.(errorCount := errorCount, nextUpdateAt := Some(until))
  }

  function RetryAt(account: Account, now: Instant): Instant {
    now + Seconds(Interval.RetrySeconds(IncrementU32(account.errorCount)))
  }

  function FailPoll(s: System, a: string, now: Instant): System
    requires a in s.accounts
  {
    var account := s.accounts[a];
    var errorCount := IncrementU32(account.errorCount);
    var until := RetryAt(account, now);
    s.(accounts := s.accounts[a := account.(errorCount := errorCount, nextDiscoveryAt := until)],
       state := Durable(
         s.state.entries[a := Entry(account.deviceIds, errorCount, Some(until))],
         UpdateDevices(s.state.devices, account.deviceIds, Penalized(errorCount, until))),
       log := s.log + [Polled(a, now, true)])
  }

  // ---- refreshing one device ----

  /** What a refresh of one device depends on besides the scheduler's own state: the location
      answered for it, whether a stage after judging that location gave up, whether the device is
      offline and how old its location is, the interval contexts of its base zone and of each
      tracked zone whose distance is known, and whether the event sink accepted its events. */
  datatype Snapshot = Snapshot(
    id: string, location: Option<Quality.Sample>, stageFailed: bool, offline: bool,
    locationAgeSeconds: Option<nat>, base: Interval.Context,
    closestZone: Option<string>, targets: map<string, Interval.Context>, sinkOk: bool)

  /** A stage before the interval decision gives up: a location that cannot be judged ends the
      refresh, and so does a failure further on. */
  predicate Faulty(config: Config, snapshot: Snapshot) {
    (snapshot.location.Some? && !Quality.Judgeable(config.gpsThresholdMeters, snapshot.location.value))
    || snapshot.stageFailed
  }

  function DeadlineAfter(now: Instant, seconds: nat): Instant {
    now + Seconds(Min(seconds, I64_MAX))
  }

  /** The tracked zones visited so far: their deadlines, the shortest wait, and whether every
      decision could be made. */
  datatype Visit = Visit(tracks: map<string, Option<Instant>>, seconds: nat, ok: bool)

  function TargetDecision(snapshot: Snapshot, base: Interval.Decision,
                          zone: string): Result<Interval.Decision, TrackingError>
    requires zone in snapshot.targets
  {
    if snapshot.closestZone == Some(zone) then Ok(base) else Interval.Decide(snapshot.targets[zone])
  }

  function VisitZone(snapshot: Snapshot, base: Interval.Decision, paused: bool, now: Instant, zone: string,
                     v: Visit): Visit
  {
    if !v.ok || zone !in snapshot.targets then v
    else
      var known := if zone in v.tracks then v.tracks[zone] else None;
      match TargetDecision(snapshot, base, zone)
      case Err(_) => Visit(v.tracks[zone := known], v.seconds, false)
      case Ok(target) =>
        Visit(v.tracks[zone := if paused then known else Some(DeadlineAfter(now, target.seconds))],
              Min(v.seconds, target.seconds), true)
  }

  function VisitZones(snapshot: Snapshot, base: Interval.Decision, paused: bool, now: Instant, zones: seq<string>,
                      start: Visit): Visit
  {
    if zones == [] then start
    else VisitZone(snapshot, base, paused, now, zones[|zones| - 1],
                   VisitZones(snapshot, base, paused, now, zones[..|zones| - 1], start))
  }

  /** Visiting does not go on once a zone could not be decided. */
  lemma {:induction false} VisitsStop(snapshot: Snapshot, base: Interval.Decision, paused: bool, now: Instant,
                                      zones: seq<string>, start: Visit, i: nat)
    requires i <= |zones| && !VisitZones(snapshot, base, paused, now, zones[..i], start).ok
    ensures VisitZones(snapshot, base, paused, now, zones, start)
        == VisitZones(snapshot, base, paused, now, zones[..i], start)
  {
    if i < |zones| {
      var front := zones[..|zones| - 1];
      assert front[..i] == zones[..i];
      VisitsStop(snapshot, base, paused, now, front, start, i);
    } else {
      assert zones[..i] == zones;
    }
  }

  function Restrict(tracks: map<string, Option<Instant>>, zones: set<string>): map<string, Option<Instant>> {
    map z | z in tracks && z in zones :: tracks[z]
  }

  function AllAt(tracks: map<string, Option<Instant>>, deadline: Option<Instant>): map<string, Option<Instant>> {
    map z | z in tracks :: deadline
  }

  function Wait(snapshot: Snapshot, seconds: nat): nat {
    if snapshot.offline then Interval.OfflineSeconds(snapshot.locationAgeSeconds.GetOr(U64_MAX)) else seconds
  }

  function Rescheduled(device: Device, snapshot: Snapshot, tracks: map<string, Option<Instant>>, seconds: nat,
                       now: Instant): Device
  {
    if device.paused then device.(tracks := tracks)
    else
      var deadline := Some(DeadlineAfter(now, Wait(snapshot, seconds)));
      device.(nextUpdateAt := deadline, tracks := if snapshot.offline then AllAt(tracks, deadline) else tracks)
  }

  datatype Refresh = Refresh(devices: map<string, Device>, ok: bool)

  function RefreshDevice(config: Config, device: Device, snapshot: Snapshot, now: Instant): (Device, bool) {
    if Faulty(config, snapshot) then (device, false)
    else
      match Interval.Decide(snapshot.base)
      case Err(_) => (device, false)
      case Ok(base) =>
        var start := Visit(Restrict(device.tracks, config.trackedFromZones), base.seconds, true);
        var visit := VisitZones(snapshot, base, device.paused, now, Ascending(config.trackedFromZones), start);
        if !visit.ok then (device.(tracks := visit.tracks), false)
        else (Rescheduled(device, snapshot, visit.tracks, visit.seconds, now), snapshot.sinkOk)
  }

  function RefreshOne(config: Config, devices: map<string, Device>, snapshot: Snapshot, now: Instant): Refresh {
    var known := if snapshot.id in devices then devices[snapshot.id] else NEW_DEVICE;
    var (device, ok) := RefreshDevice(config, known, snapshot, now);
    Refresh(devices[snapshot.id := device], ok)
  }

  function RefreshAll(config: Config, devices: map<string, Device>, snapshots: seq<Snapshot>, now: Instant): Refresh {
    if snapshots == [] then Refresh(devices, true)
    else
      var before := RefreshAll(config, devices, snapshots[..|snapshots| - 1], now);
      if before.ok then RefreshOne(config, before.devices, snapshots[|snapshots| - 1], now) else before
  }

  /** Refreshing does not go on once something has failed. */
  lemma {:induction false} RefreshesStop(config: Config, devices: map<string, Device>, snapshots: seq<Snapshot>,
                                         now: Instant, i: nat)
    requires i <= |snapshots| && !RefreshAll(config, devices, snapshots[..i], now).ok
    ensures RefreshAll(config, devices, snapshots, now) == RefreshAll(config, devices, snapshots[..i], now)
  {
    if i < |snapshots| {
      var front := snapshots[..|snapshots| - 1];
      assert front[..i] == snapshots[..i];
      RefreshesStop(config, devices, front, now, i);
    } else {
      assert snapshots[..i] == snapshots;
    }
  }

  function SnapshotIds(snapshots: seq<Snapshot>): set<string> {
    set snapshot | snapshot in snapshots :: snapshot.id
  }

  /** Sets every device's nearby group to what the grouping found. */
  function Regrouped(devices: map<string, Device>, groups: map<string, nat>): map<string, Device> {
    map d | d in devices :: devices[d].(nearbyGroup := if d in groups then Some(groups[d]) else None)
  }

  // ---- a successful poll ----

  function Settled(fallback: Instant): Device -> Device {
    (device: Device) =>
      device.(errorCount := 0,
              nextUpdateAt := if device.nextUpdateAt.None? then Some(fallback) else device.nextUpdateAt)
  }

  function FinishedIds(account: Account, refreshed: set<string>): set<string> {
    account.configured.GetOr(refreshed)
  }

  /** The account after a successful poll, due when the first of its devices is. */
  function Finished(account: Account, ids: set<string>, devices: map<string, Device>, fallback: Instant): Account {
    account.(deviceIds := ids, errorCount := 0,
             nextDiscoveryAt := EarliestUpdate(Ascending(ids), devices).GetOr(fallback))
  }

  function FinishPoll(config: Config, s: System, a: string, refreshed: set<string>, now: Instant): System
    requires a in s.accounts
  {
    var fallback: Instant := now + config.defaultInterval;
    var ids := FinishedIds(s.accounts[a], refreshed);
    var devices := UpdateDevices(s.state.devices, ids, Settled(fallback));
    var account := Finished(s.accounts[a], ids, devices, fallback);
    s.(accounts := s.accounts[a := account],
       state := Durable(s.state.entries[a := Entry(ids, 0, Some(account.nextDiscoveryAt))], devices))
  }

  /** A provider's answer to one poll, with the grouping of nearby devices that follows it. */
  datatype Answer =
    | Failure(sinkOk: bool)
    | Found(snapshots: seq<Snapshot>, groups: map<string, nat>)

  predicate Wanted(configured: Option<set<string>>, snapshot: Snapshot) {
    configured.Some? ==> snapshot.id in configured.value
  }

  /** The snapshots of configured devices, or all of them when none are configured. */
  function Relevant(configured: Option<set<string>>, snapshots: seq<Snapshot>): seq<Snapshot> {
    if snapshots == [] then []
    else
      Relevant(configured, snapshots[..|snapshots| - 1])
      + (if Wanted(configured, snapshots[|snapshots| - 1]) then [snapshots[|snapshots| - 1]] else [])
  }

  datatype Outcome = Outcome(s: System, ok: bool)

  function SucceedPoll(config: Config, s: System, a: string, snapshots: seq<Snapshot>, groups: map<string, nat>,
                       now: Instant): Outcome
    requires a in s.accounts
  {
    var relevant := Relevant(s.accounts[a].configured, snapshots);
    var refresh := RefreshAll(config, s.state.devices, relevant, now);
    var polled := s.log + [Polled(a, now, false)];
    if !refresh.ok then
      Outcome(s.(state := s.state.(devices := refresh.devices), log := polled), false)
    else
      var regrouped := s.(state := s.state.(devices := Regrouped(refresh.devices, groups)), log := polled);
      Outcome(FinishPoll(config, regrouped, a, SnapshotIds(relevant), now), true)
  }

  function Poll(config: Config, s: System, a: string, answer: Answer, now: Instant): Outcome
    requires a in s.accounts
  {
    match answer
    case Failure(sinkOk) => Outcome(FailPoll(s, a, now), sinkOk)
    case Found(snapshots, groups) => SucceedPoll(config, s, a, snapshots, groups, now)
  }

  lemma PollKeepsAccounts(config: Config, s: System, a: string, answer: Answer, now: Instant)
    requires a in s.accounts
    ensures Poll(config, s, a, answer, now).s.accounts.Keys == s.accounts.Keys
  {
  }

  /** Polls the listed accounts in turn, stopping when the event sink or a refresh fails. */
  function PollAll(config: Config, s: System, due: seq<string>, answers: string -> Answer, now: Instant): (r: Outcome)
    requires forall a | a in due :: a in s.accounts
    ensures r.s.accounts.Keys == s.accounts.Keys
  {
    if due == [] then Outcome(s, true)
    else
      var before := PollAll(config, s, due[..|due| - 1], answers, now);
      if !before.ok then before
      else
        var a := due[|due| - 1];
        PollKeepsAccounts(config, before.s, a, answers(a), now);
        Poll(config, before.s, a, answers(a), now)
  }

  /** Polling does not go on once something has failed. */
  lemma {:induction false} PollsStop(config: Config, s: System, due: seq<string>, answers: string -> Answer,
                                     now: Instant, i: nat)
    requires i <= |due| && forall a | a in due :: a in s.accounts
    requires !PollAll(config, s, due[..i], answers, now).ok
    ensures PollAll(config, s, due, answers, now) == PollAll(config, s, due[..i], answers, now)
  {
    if i < |due| {
      var front := due[..|due| - 1];
      assert front[..i] == due[..i];
      PollsStop(config, s, front, answers, now, i);
    } else {
      assert due[..i] == due;
    }
  }

  /** Writes the state to the store if the operation got that far and the store accepts it. */
  function Persisted(o: Outcome, storeOk: bool): System {
    if o.ok && storeOk then o.s.(saved := o.s.state) else o.s
  }

  function Tick(config: Config, s: System, now: Instant, answers: string -> Answer, storeOk: bool): System {
    Persisted(PollAll(config, s, Ascending(DueAccounts(config, s, now)), answers, now), storeOk)
  }

  // ---- the other operations ----

  function Pausing(): Device -> Device {
    (device: Device) => device.(paused := true)
  }

  function Resuming(now: Instant): Device -> Device {
    (device: Device) => device.(paused := false, nextUpdateAt := Some(now))
  }

  function Scheduling(at: Instant): Device -> Device {
    (device: Device) => device.(nextUpdateAt := Some(at))
  }

  function Selected(devices: map<string, Device>, device: Option<string>): set<string> {
    match device
    case None => devices.Keys
    case Some(d) => {d}
  }

  predicate KnownDevice(devices: map<string, Device>, device: Option<string>) {
    device.Some? ==> device.value in devices
  }

  /** Changes the selected devices, announces it, and saves if the announcement went out. */
  function Amend(s: System, device: Option<string>, f: Device -> Device, io: Io): System {
    if !KnownDevice(s.state.devices, device) then s
    else
      var devices := UpdateDevices(s.state.devices, Selected(s.state.devices, device), f);
      Persisted(Outcome(s.(state := s.state.(devices := devices)), io.sinkOk), io.storeOk)
  }

  function LocateNow(s: System, a: string, now: Instant, io: Io): System {
    if a !in s.accounts then s
    else
      var account := s.accounts[a];
      var entry := PersistedEntry(s.state, a).(nextDiscoveryAt := Some(now));
      var devices := UpdateDevices(s.state.devices, account.deviceIds, Scheduling(now));
      Persisted(Outcome(
        s.(accounts := s.accounts[a := account.(nextDiscoveryAt := now)],
           state := Durable(s.state.entries[a := entry], devices),
           log := s.log + [Located(a, now)]),
        io.sinkOk), io.storeOk)
  }

  const EXIT_DELAY_SECONDS: nat := 120

  predicate Later(device: Device, at: Instant) {
    !device.paused && (device.nextUpdateAt.None? || device.nextUpdateAt.value > at)
  }

  /** Brings a device that was near one that left a zone forward to two minutes from now. */
  function BroughtForward(at: Instant): Device -> Device {
    (device: Device) =>
      if Later(device, at) then device.(nextUpdateAt := Some(at), tracks := AllAt(device.tracks, Some(at)))
      else device
  }

  /** The other devices in the nearby group of a device that left a zone. */
  function Companions(devices: map<string, Device>, source: string, zoneExit: bool): set<string> {
    if zoneExit && source in devices && devices[source].nearbyGroup.Some? then
      set d | d in devices && d != source && devices[d].nearbyGroup == devices[source].nearbyGroup
    else {}
  }

  predicate AnyLater(devices: map<string, Device>, ids: set<string>, at: Instant) {
    exists d | d in ids :: d in devices && Later(devices[d], at)
  }

  /** What follows a refresh outside any account: every nearby group is found again, and the
      companions of a device that left a zone are brought forward. */
  function Followed(refresh: Refresh, companions: set<string>, groups: map<string, nat>, exitSinkOk: bool,
                    at: Instant): Refresh
  {
    if !refresh.ok then refresh
    else
      var regrouped := Regrouped(refresh.devices, groups);
      Refresh(UpdateDevices(regrouped, companions, BroughtForward(at)),
              AnyLater(regrouped, companions, at) ==> exitSinkOk)
  }

  /** The devices after an accepted external update about one of them. */
  function ExternalRefresh(config: Config, devices: map<string, Device>, snapshot: Snapshot, zoneExit: bool,
                           groups: map<string, nat>, exitSinkOk: bool, now: Instant): Refresh
  {
    Followed(RefreshOne(config, devices, snapshot, now), Companions(devices, snapshot.id, zoneExit), groups, exitSinkOk,
             now + Seconds(EXIT_DELAY_SECONDS))
  }

  /** An accepted external update refreshes one device outside any account. */
  function External(config: Config, s: System, snapshot: Snapshot, zoneExit: bool, groups: map<string, nat>,
                    io: Io, now: Instant): System
  {
    var refresh := ExternalRefresh(config, s.state.devices, snapshot, zoneExit, groups, io.sinkOk, now);
    Persisted(Outcome(s.(state := s.state.(devices := refresh.devices)), refresh.ok), io.storeOk)
  }
}
