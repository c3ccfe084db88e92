// Restarting from the durable state: when every device belongs to one account, registering
// the accounts again rebuilds exactly the scheduler that was saved.
module SchedulerRestart {
  import opened Core
  import opened Order
  import opened Scheduler
  import opened SchedulerBackoff
  import Interval

  // ---- the invariant ----

  ghost predicate Known(s: System) {
    forall a | a in s.accounts :: s.accounts[a].deviceIds <= s.state.devices.Keys
  }

  ghost predicate ErrorsBelow(s: System) {
    forall a, d | a in s.accounts && d in s.accounts[a].deviceIds && d in s.state.devices ::
      s.state.devices[d].errorCount <= s.accounts[a].errorCount
  }

  ghost predicate Owned(owner: string -> string, s: System) {
    forall a, d | a in s.accounts && d in s.accounts[a].deviceIds :: owner(d) == a
  }

  /** A device in error has a deadline, and no deadline is the "never set" instant. */
  predicate DeviceDated(device: Device) {
    (device.errorCount > 0 ==> device.nextUpdateAt.Some?) && device.nextUpdateAt != Some(MIN_UTC)
  }

  ghost predicate DevicesDated(devices: map<string, Device>) {
    forall d | d in devices :: DeviceDated(devices[d])
  }

  predicate EntryDated(entry: Entry) {
    entry.nextDiscoveryAt != Some(MIN_UTC) && (entry.nextDiscoveryAt.None? ==> entry.errorCount == 0)
  }

  ghost predicate EntriesDated(entries: map<string, Entry>) {
    forall a | a in entries :: EntryDated(entries[a])
  }

  ghost predicate Sound(owner: string -> string, s: System) {
    && Mirrored(s) && s.state.entries.Keys == s.accounts.Keys
    && Known(s) && ErrorsBelow(s) && Owned(owner, s)
    && DevicesDated(s.state.devices) && EntriesDated(s.state.entries)
  }

  // ---- operations that respect the ownership of devices ----

  ghost predicate OwnAnswer(owner: string -> string, account: Account, a: string, answer: Answer) {
    answer.Found? ==>
      forall snapshot | snapshot in Relevant(account.configured, answer.snapshots) :: owner(snapshot.id) == a
  }

  /** Accounts are configured with, and answer for, their own devices only, and no instant is
      the one that stands for "never set". */
  ghost predicate Honest(owner: string -> string, s: System, op: Operation) {
    match op
    case Registering(a, configured) => forall d | d in configured :: owner(d) == a
    case Ticking(now, answers, storeOk) =>
      now != MIN_UTC && forall a | a in s.accounts :: OwnAnswer(owner, s.accounts[a], a, answers(a))
    case Locating(_, now, _) => now != MIN_UTC
    case Pause(_, _) => true
    case Resume(_, now, _) => now != MIN_UTC
    case Schedule(_, at, _) => at != MIN_UTC
    case ExternalUpdate(_, _, _, _, now) => now != MIN_UTC
  }

  // ---- facts about lists of devices ----

  lemma EarliestDated(ids: seq<string>, devices: map<string, Device>)
    requires DevicesDated(devices)
    ensures EarliestUpdate(ids, devices) != Some(MIN_UTC)
    ensures MaxErrors(ids, devices) > 0 ==> EarliestUpdate(ids, devices).Some?
  {
    EarliestBounds(ids, devices);
    MaxErrorsBounds(ids, devices);
  }

  // ---- what registering reads ----

  /** An account's errors are the most that its entry or one of its devices counts. */
  ghost predicate ErrorsRead(saved: Durable, entry: Entry, account: Account) {
    && account.errorCount >= entry.errorCount
    && (forall d | d in account.deviceIds && d in saved.devices :: account.errorCount >= saved.devices[d].errorCount)
    && (account.errorCount == entry.errorCount
        || exists d :: d in account.deviceIds && d in saved.devices
                       && account.errorCount == saved.devices[d].errorCount)
  }

  predicate HasDeadline(saved: Durable, account: Account, d: string) {
    d in account.deviceIds && d in saved.devices && saved.devices[d].nextUpdateAt.Some?
  }

  /** Its date is that of its entry; in error without one, the first deadline of its devices, and
      otherwise never. */
  ghost predicate DateRead(saved: Durable, entry: Entry, account: Account) {
    var date := account.nextDiscoveryAt;
    if entry.nextDiscoveryAt.Some? then date == entry.nextDiscoveryAt.value
    else if account.errorCount > 0 && exists d :: HasDeadline(saved, account, d) then
      && (forall d | HasDeadline(saved, account, d) :: date <= saved.devices[d].nextUpdateAt.value)
      && exists d :: HasDeadline(saved, account, d) && date == saved.devices[d].nextUpdateAt.value
    else date == MIN_UTC
  }

  lemma ReadsErrors(saved: Durable, a: string, configured: set<string>)
    ensures ErrorsRead(saved, PersistedEntry(saved, a), RegisteredAccount(saved, a, configured))
  {
    var account := RegisteredAccount(saved, a, configured);
    var ids, devices := Ascending(account.deviceIds), WithDevices(saved.devices, account.deviceIds);
    MaxErrorsBounds(ids, devices);
    forall d | d in account.deviceIds && d in saved.devices
      ensures saved.devices[d].errorCount <= MaxErrors(ids, devices)
    {
      assert d in ids && devices[d] == saved.devices[d];
    }
    if account.errorCount > PersistedEntry(saved, a).errorCount {
      var d :| d in ids && d in devices && devices[d].errorCount == MaxErrors(ids, devices);
      assert d in saved.devices && devices[d] == saved.devices[d];
    }
  }

  lemma ReadsDate(saved: Durable, a: string, configured: set<string>)
    ensures DateRead(saved, PersistedEntry(saved, a), RegisteredAccount(saved, a, configured))
  {
    var account := RegisteredAccount(saved, a, configured);
    var ids, devices := Ascending(account.deviceIds), WithDevices(saved.devices, account.deviceIds);
    EarliestBounds(ids, devices);
    var earliest := EarliestUpdate(ids, devices);
    forall d | HasDeadline(saved, account, d)
      ensures earliest.Some? && earliest.value <= saved.devices[d].nextUpdateAt.value
    {
      assert d in ids && devices[d] == saved.devices[d];
    }
    if earliest.Some? {
      var d :| d in ids && d in devices && devices[d].nextUpdateAt == earliest;
      assert HasDeadline(saved, account, d) && devices[d] == saved.devices[d];
    }
  }

  /** Registering reads an account from the state, gives its new devices a blank state, and writes
      its entry; other accounts, entries and devices stay as they were, and nothing is saved. */
  lemma RegisteringReads(s: System, a: string, configured: set<string>)
    ensures
      var after := Register(s, a, configured);
      var account := Register(s, a, configured).accounts[a];
      var entry := if a in s.state.entries then s.state.entries[a] else Entry({}, 0, None);
      && after == System(s.accounts[a := account], after.state, s.saved, s.log)
      && account.configured == (if configured == {} then None else Some(configured))
      && account.deviceIds == (if configured != {} then configured else entry.deviceIds)
      && ErrorsRead(s.state, entry, account) && DateRead(s.state, entry, account)
      && after.state.entries
         == s.state.entries[a := Entry(account.deviceIds, account.errorCount,
                                       if account.nextDiscoveryAt == MIN_UTC then None
                                       else Some(account.nextDiscoveryAt))]
      && after.state.devices.Keys == s.state.devices.Keys + account.deviceIds
      && forall d | d in after.state.devices ::
           after.state.devices[d]
           == if d in s.state.devices then s.state.devices[d] else Device(None, false, 0, map[], None)
  {
    ReadsErrors(s.state, a, configured);
    ReadsDate(s.state, a, configured);
  }

  // ---- what refreshing does to the devices ----

  /** Devices are never forgotten, keep their error counts, and stay dated. */
  ghost predicate Refreshed(before: map<string, Device>, after: map<string, Device>) {
    && before.Keys <= after.Keys
    && (forall d | d in after :: after[d].errorCount == if d in before then before[d].errorCount else 0)
    && (DevicesDated(before) ==> DevicesDated(after))
  }

  lemma RefreshDeviceShape(config: Config, device: Device, snapshot: Snapshot, now: Instant)
    ensures
      var (after, _) := RefreshDevice(config, device, snapshot, now);
      && after.errorCount == device.errorCount && after.paused == device.paused
      && (DeviceDated(device) ==> DeviceDated(after))
  {
    if !Faulty(config, snapshot) && Interval.Decide(snapshot.base).Ok? {
      var base := Interval.Decide(snapshot.base).value;
      Interval.DecisionsAreFives(snapshot.base);
      var start := Visit(Restrict(device.tracks, config.trackedFromZones), base.seconds, true);
      VisitedSecondsPositive(snapshot, base, device.paused, now, Ascending(config.trackedFromZones), start);
    }
  }

  lemma {:induction false} VisitedSecondsPositive(snapshot: Snapshot, base: Interval.Decision, paused: bool,
                                                  now: Instant, zones: seq<string>, start: Visit)
    requires start.seconds >= 5 && base.seconds >= 5
    ensures VisitZones(snapshot, base, paused, now, zones, start).seconds >= 5
  {
    if zones != [] {
      var zone := zones[|zones| - 1];
      VisitedSecondsPositive(snapshot, base, paused, now, zones[..|zones| - 1], start);
      if zone in snapshot.targets && Interval.Decide(snapshot.targets[zone]).Ok? {
        Interval.DecisionsAreFives(snapshot.targets[zone]);
      }
    }
  }

  lemma RefreshOneShape(config: Config, devices: map<string, Device>, snapshot: Snapshot, now: Instant)
    ensures Refreshed(devices, RefreshOne(config, devices, snapshot, now).devices)
    ensures snapshot.id in RefreshOne(config, devices, snapshot, now).devices
  {
    RefreshDeviceShape(config, if snapshot.id in devices then devices[snapshot.id] else NEW_DEVICE, snapshot, now);
  }

  lemma {:induction false} RefreshAllShape(config: Config, devices: map<string, Device>, snapshots: seq<Snapshot>,
                                           now: Instant)
    ensures
      var r := RefreshAll(config, devices, snapshots, now);
      Refreshed(devices, r.devices) && (r.ok ==> SnapshotIds(snapshots) <= r.devices.Keys)
  {
    if snapshots != [] {
      var front, last := snapshots[..|snapshots| - 1], snapshots[|snapshots| - 1];
      assert snapshots == front + [last];
      RefreshAllShape(config, devices, front, now);
      var before := RefreshAll(config, devices, front, now);
      if before.ok {
        RefreshOneShape(config, before.devices, last, now);
      }
    }
  }

  // ---- every operation keeps the invariant ----

  /** Devices may be added, refreshed or amended, as long as no error count grows. */
  lemma SoundWithDevices(owner: string -> string, s: System, devices: map<string, Device>, s': System)
    requires Sound(owner, s)
    requires s.state.devices.Keys <= devices.Keys && DevicesDated(devices)
    requires forall d | d in s.state.devices :: devices[d].errorCount <= s.state.devices[d].errorCount
    requires s'.accounts == s.accounts && s'.state == Durable(s.state.entries, devices)
    ensures Sound(owner, s')
  {
  }

  /** One account may be replaced, with its entry and its own devices. */
  lemma SoundWithAccount(owner: string -> string, s: System, a: string, account: Account, entry: Entry,
                         devices: map<string, Device>, s': System)
    requires Sound(owner, s)
    requires MirrorOf(entry, account) && EntryDated(entry)
    requires s.state.devices.Keys <= devices.Keys && DevicesDated(devices)
    requires forall d | d in account.deviceIds ::
        d in devices && owner(d) == a && devices[d].errorCount <= account.errorCount
    requires forall d | d in s.state.devices && owner(d) != a :: devices[d].errorCount <= s.state.devices[d].errorCount
    requires s'.accounts == s.accounts[a := account] && s'.state == Durable(s.state.entries[a := entry], devices)
    ensures Sound(owner, s')
  {
  }

  lemma RegisterSound(owner: string -> string, s: System, a: string, configured: set<string>)
    requires Sound(owner, s) && forall d | d in configured :: owner(d) == a
    ensures Sound(owner, Register(s, a, configured))
  {
    var account := RegisteredAccount(s.state, a, configured);
    var ids := account.deviceIds;
    var devices := WithDevices(s.state.devices, ids);
    MaxErrorsBounds(Ascending(ids), devices);
    assert DevicesDated(devices);
    EarliestDated(Ascending(ids), devices);
    forall d | d in ids ensures owner(d) == a && devices[d].errorCount <= account.errorCount {
      assert d in Ascending(ids);
    }
    SoundWithAccount(owner, s, a, account, EntryOf(account), devices, Register(s, a, configured));
  }

  lemma FailPollSound(owner: string -> string, s: System, a: string, now: Instant)
    requires Sound(owner, s) && a in s.accounts
    ensures Sound(owner, FailPoll(s, a, now))
  {
    var after := FailPoll(s, a, now);
    forall b, d | b in after.accounts && d in after.accounts[b].deviceIds && d in after.state.devices
      ensures after.state.devices[d].errorCount <= after.accounts[b].errorCount
    {
      assert owner(d) == b;
    }
  }

  lemma SettledShape(devices: map<string, Device>, ids: set<string>, fallback: Instant)
    requires DevicesDated(devices) && fallback != MIN_UTC
    ensures
      var after := UpdateDevices(devices, ids, Settled(fallback));
      && after.Keys == devices.Keys && DevicesDated(after)
      && forall d | d in after :: after[d].errorCount == if d in ids then 0 else devices[d].errorCount
  {
    forall d | d in devices ensures DeviceDated(Settled(fallback)(devices[d])) {
      assert DeviceDated(devices[d]);
    }
  }

  lemma FinishedMirrored(account: Account, entry: Entry, refreshed: set<string>, devices: map<string, Device>,
                         fallback: Instant)
    requires MirrorOf(entry, account) && DevicesDated(devices) && fallback != MIN_UTC
    ensures
      var ids := FinishedIds(account, refreshed);
      var after := Finished(account, ids, devices, fallback);
      var finished := Entry(ids, 0, Some(after.nextDiscoveryAt));
      MirrorOf(finished, after) && EntryDated(finished)
  {
    EarliestDated(Ascending(FinishedIds(account, refreshed)), devices);
  }

  lemma FinishedOwned(owner: string -> string, s: System, a: string, refreshed: set<string>)
    requires Sound(owner, s) && a in s.accounts && refreshed <= s.state.devices.Keys
    requires s.accounts[a].configured.None? ==> forall d | d in refreshed :: owner(d) == a
    ensures forall d | d in FinishedIds(s.accounts[a], refreshed) :: d in s.state.devices && owner(d) == a
  {
    assert MirrorOf(s.state.entries[a], s.accounts[a]);
  }

  /** An account may be left without errors, with devices of its own. */
  lemma SoundWithFinished(owner: string -> string, s: System, a: string, account: Account, entry: Entry,
                          devices: map<string, Device>, s': System)
    requires Sound(owner, s) && a in s.accounts
    requires MirrorOf(entry, account) && EntryDated(entry) && account.errorCount == 0
    requires forall d | d in account.deviceIds :: d in s.state.devices && owner(d) == a
    requires devices.Keys == s.state.devices.Keys && DevicesDated(devices)
    requires
      forall d | d in devices ::
        devices[d].errorCount == if d in account.deviceIds then 0 else s.state.devices[d].errorCount
    requires s'.accounts == s.accounts[a := account] && s'.state == Durable(s.state.entries[a := entry], devices)
    ensures Sound(owner, s')
  {
    SoundWithAccount(owner, s, a, account, entry, devices, s');
  }

  lemma FinishPollParts(config: Config, s: System, a: string, refreshed: set<string>, now: Instant)
    requires a in s.accounts
    ensures
      var fallback: Instant := now + config.defaultInterval;
      var ids := FinishedIds(s.accounts[a], refreshed);
      var devices := UpdateDevices(s.state.devices, ids, Settled(fallback));
      var account := Finished(s.accounts[a], ids, devices, fallback);
      var after := FinishPoll(config, s, a, refreshed, now);
      && after.accounts == s.accounts[a := account]
      && after.state == Durable(s.state.entries[a := Entry(ids, 0, Some(account.nextDiscoveryAt))], devices)
  {
  }

  lemma FinishPollSound(config: Config, owner: string -> string, s: System, a: string, refreshed: set<string>,
                        now: Instant)
    requires Sound(owner, s) && a in s.accounts && now != MIN_UTC && refreshed <= s.state.devices.Keys
    requires s.accounts[a].configured.None? ==> forall d | d in refreshed :: owner(d) == a
    ensures Sound(owner, FinishPoll(config, s, a, refreshed, now))
  {
    var fallback: Instant := now + config.defaultInterval;
    var ids := FinishedIds(s.accounts[a], refreshed);
    var devices := UpdateDevices(s.state.devices, ids, Settled(fallback));
    var after := Finished(s.accounts[a], ids, devices, fallback);
    FinishedOwned(owner, s, a, refreshed);
    SettledShape(s.state.devices, ids, fallback);
    FinishedMirrored(s.accounts[a], s.state.entries[a], refreshed, devices, fallback);
    FinishPollParts(config, s, a, refreshed, now);
    SoundWithFinished(owner, s, a, after, Entry(ids, 0, Some(after.nextDiscoveryAt)), devices,
                      FinishPoll(config, s, a, refreshed, now));
  }

  lemma SucceedPollSound(config: Config, owner: string -> string, s: System, a: string, snapshots: seq<Snapshot>,
                         groups: map<string, nat>, now: Instant)
    requires Sound(owner, s) && a in s.accounts && now != MIN_UTC
    requires OwnAnswer(owner, s.accounts[a], a, Found(snapshots, groups))
    ensures Sound(owner, SucceedPoll(config, s, a, snapshots, groups, now).s)
  {
    var relevant := Relevant(s.accounts[a].configured, snapshots);
    var refresh := RefreshAll(config, s.state.devices, relevant, now);
    RefreshAllShape(config, s.state.devices, relevant, now);
    var polled := s.log + [Polled(a, now, false)];
    if refresh.ok {
      var devices := Regrouped(refresh.devices, groups);
      forall d | d in devices ensures DeviceDated(devices[d]) {
        assert DeviceDated(refresh.devices[d]);
      }
      var regrouped := s.(state := s.state.(devices := devices), log := polled);
      SoundWithDevices(owner, s, devices, regrouped);
      FinishPollSound(config, owner, regrouped, a, SnapshotIds(relevant), now);
    } else {
      SoundWithDevices(owner, s, refresh.devices, s.(state := s.state.(devices := refresh.devices), log := polled));
    }
  }

  lemma {:induction false} PollAllSound(config: Config, owner: string -> string, s: System, due: seq<string>,
                                        answers: string -> Answer, now: Instant)
    requires Sound(owner, s) && now != MIN_UTC
    requires forall a | a in due :: a in s.accounts && OwnAnswer(owner, s.accounts[a], a, answers(a))
    ensures Sound(owner, PollAll(config, s, due, answers, now).s)
  {
    if due != [] {
      var front, a := due[..|due| - 1], due[|due| - 1];
      PollAllSound(config, owner, s, front, answers, now);
      PollAllTouchesListed(config, s, front, answers, now);
      var before := PollAll(config, s, front, answers, now);
      if before.ok {
        match answers(a) {
          case Failure(_) => FailPollSound(owner, before.s, a, now);
          case Found(snapshots, groups) => SucceedPollSound(config, owner, before.s, a, snapshots, groups, now);
        }
      }
    }
  }

  lemma TickSound(config: Config, owner: string -> string, s: System, now: Instant, answers: string -> Answer,
                  storeOk: bool)
    requires Sound(owner, s) && Honest(owner, s, Ticking(now, answers, storeOk))
    ensures Sound(owner, Tick(config, s, now, answers, storeOk))
  {
    var due := Ascending(DueAccounts(config, s, now));
    PollAllSound(config, owner, s, due, answers, now);
    var r := PollAll(config, s, due, answers, now);
    SoundWithDevices(owner, r.s, r.s.state.devices, Tick(config, s, now, answers, storeOk));
  }

  lemma LocateSound(owner: string -> string, s: System, a: string, now: Instant, io: Io)
    requires Sound(owner, s) && now != MIN_UTC
    ensures Sound(owner, LocateNow(s, a, now, io))
  {
    if a in s.accounts {
      assert MirrorOf(s.state.entries[a], s.accounts[a]);
      var after := LocateNow(s, a, now, io);
      forall d | d in after.state.devices ensures DeviceDated(after.state.devices[d]) {
        assert DeviceDated(s.state.devices[d]);
      }
    }
  }

  lemma AmendSound(owner: string -> string, s: System, device: Option<string>, f: Device -> Device, io: Io)
    requires Sound(owner, s)
    requires forall x: Device :: f(x).errorCount == x.errorCount && (DeviceDated(x) ==> DeviceDated(f(x)))
    ensures Sound(owner, Amend(s, device, f, io))
  {
    if KnownDevice(s.state.devices, device) {
      var devices := UpdateDevices(s.state.devices, Selected(s.state.devices, device), f);
      forall d | d in devices ensures DeviceDated(devices[d]) {
        assert DeviceDated(s.state.devices[d]);
      }
      SoundWithDevices(owner, s, devices, Amend(s, device, f, io));
    }
  }

  /** Devices may be added and changed as long as the known ones keep their error counts. */
  ghost predicate Tamed(before: map<string, Device>, after: map<string, Device>) {
    && before.Keys <= after.Keys && DevicesDated(after)
    && forall d | d in before :: after[d].errorCount == before[d].errorCount
  }

  lemma FollowedTamed(before: map<string, Device>, refresh: Refresh, companions: set<string>, groups: map<string, nat>,
                      sinkOk: bool, at: Instant)
    requires Tamed(before, refresh.devices) && at != MIN_UTC
    ensures Tamed(before, Followed(refresh, companions, groups, sinkOk, at).devices)
  {
    var regrouped := Regrouped(refresh.devices, groups);
    forall d | d in refresh.devices ensures DeviceDated(BroughtForward(at)(regrouped[d])) && DeviceDated(regrouped[d]) {
      assert DeviceDated(refresh.devices[d]);
    }
  }

  lemma RefreshOneTamed(config: Config, devices: map<string, Device>, snapshot: Snapshot, now: Instant)
    requires DevicesDated(devices)
    ensures Tamed(devices, RefreshOne(config, devices, snapshot, now).devices)
  {
    RefreshOneShape(config, devices, snapshot, now);
  }

  lemma ExternalRefreshTamed(config: Config, devices: map<string, Device>, snapshot: Snapshot, zoneExit: bool,
                             groups: map<string, nat>, sinkOk: bool, now: Instant)
    requires DevicesDated(devices) && now != MIN_UTC
    ensures Tamed(devices, ExternalRefresh(config, devices, snapshot, zoneExit, groups, sinkOk, now).devices)
  {
    var refresh := RefreshedTamely(config, devices, snapshot, now);
    FollowedTamed(devices, refresh, Companions(devices, snapshot.id, zoneExit), groups, sinkOk,
                  now + Seconds(EXIT_DELAY_SECONDS));
  }

  lemma RefreshedTamely(config: Config, devices: map<string, Device>, snapshot: Snapshot, now: Instant)
    returns (refresh: Refresh)
    requires DevicesDated(devices)
    ensures refresh == RefreshOne(config, devices, snapshot, now) && Tamed(devices, refresh.devices)
  {
    refresh := RefreshOne(config, devices, snapshot, now);
    RefreshOneTamed(config, devices, snapshot, now);
  }

  lemma ExternalSound(config: Config, owner: string -> string, s: System, snapshot: Snapshot, zoneExit: bool,
                      groups: map<string, nat>, io: Io, now: Instant)
    requires Sound(owner, s) && now != MIN_UTC
    ensures Sound(owner, External(config, s, snapshot, zoneExit, groups, io, now))
  {
    ExternalRefreshTamed(config, s.state.devices, snapshot, zoneExit, groups, io.sinkOk, now);
    var after := External(config, s, snapshot, zoneExit, groups, io, now);
    SoundWithDevices(owner, s, after.state.devices, after);
  }

  lemma StepSound(config: Config, owner: string -> string, s: System, op: Operation)
    requires Sound(owner, s) && Honest(owner, s, op)
    ensures Sound(owner, Step(config, s, op))
  {
    match op
    case Registering(a, configured) => RegisterSound(owner, s, a, configured);
    case Ticking(now, answers, storeOk) => TickSound(config, owner, s, now, answers, storeOk);
    case Locating(a, now, io) => LocateSound(owner, s, a, now, io);
    case Pause(device, io) => AmendSound(owner, s, device, Pausing(), io);
    case Resume(device, now, io) => AmendSound(owner, s, device, Resuming(now), io);
    case Schedule(device, at, io) => AmendSound(owner, s, Some(device), Scheduling(at), io);
    case ExternalUpdate(snapshot, zoneExit, groups, io, now) =>
      ExternalSound(config, owner, s, snapshot, zoneExit, groups, io, now);
  }

  ghost predicate HonestRun(config: Config, owner: string -> string, run: seq<Operation>, m: nat)
    requires m <= |run|
  {
    forall k | 0 <= k < m :: HonestAt(config, owner, run, k)
  }

  ghost predicate HonestAt(config: Config, owner: string -> string, run: seq<Operation>, k: nat)
    requires k < |run|
  {
    Honest(owner, After(config, BLANK, run, k), run[k])
  }

  lemma SoundKept(config: Config, owner: string -> string, run: seq<Operation>, n: nat, m: nat)
    requires n < |run| && m == n + 1
    requires Sound(owner, After(config, BLANK, run, n)) && HonestAt(config, owner, run, n)
    ensures Sound(owner, After(config, BLANK, run, m))
  {
    StepSound(config, owner, After(config, BLANK, run, n), run[n]);
  }

  /** Starting from nothing, with every device belonging to one account, the durable entries
      always mirror the accounts, their devices are always known, and no device's error count
      exceeds its account's. */
  lemma {:induction false} ReachableSound(config: Config, owner: string -> string, run: seq<Operation>, m: nat)
    requires m <= |run| && HonestRun(config, owner, run, m)
    ensures Sound(owner, After(config, BLANK, run, m))
  {
    if m > 0 {
      var n := m - 1;
      ReachableSound(config, owner, run, n);
      SoundKept(config, owner, run, n, m);
    }
  }

  // ---- restarting ----

  function Configuration(account: Account): set<string> {
    account.configured.GetOr({})
  }

  /** Registers the listed accounts, configured as in `s`, with a scheduler that has loaded
      the state `s` saved. */
  function Restarted(s: System, order: seq<string>): System
    requires forall a | a in order :: a in s.accounts
  {
    if order == [] then Loaded(s.saved)
    else
      var a := order[|order| - 1];
      Register(Restarted(s, order[..|order| - 1]), a, Configuration(s.accounts[a]))
  }

  /** The account is what registering it again reads back: none of its devices has more errors
      than it has, and in error it knows when it is due. */
  predicate ReadsBack(s: System, a: string)
    requires a in s.accounts && a in s.state.entries
  {
    var account := s.accounts[a];
    && (forall d | d in account.deviceIds && d in s.state.devices ::
          s.state.devices[d].errorCount <= account.errorCount)
    && (s.state.entries[a].nextDiscoveryAt.Some? || account.errorCount == 0
        || EarliestUpdate(Ascending(account.deviceIds), s.state.devices).GetOr(MIN_UTC) == MIN_UTC)
  }

  /** The account as it is registered again from the same state. */
  function Again(s: System, a: string): Account
    requires a in s.accounts
  {
    RegisteredAccount(s.state, a, Configuration(s.accounts[a]))
  }

  lemma RegistersAgainExactly(s: System, a: string)
    requires Mirrored(s) && Known(s) && a in s.accounts
    ensures Again(s, a) == s.accounts[a] <==> ReadsBack(s, a)
  {
    var account := s.accounts[a];
    assert MirrorOf(s.state.entries[a], account);
    assert WithDevices(s.state.devices, account.deviceIds) == s.state.devices;
    var ids := Ascending(account.deviceIds);
    MaxErrorsBounds(ids, s.state.devices);
    assert RegisteredIds(s.state, a, Configuration(account)) == account.deviceIds;
  }

  /** Registering an account a second time changes nothing more. */
  lemma AgainIsStable(s: System, entries: map<string, Entry>, a: string)
    requires Mirrored(s) && Known(s) && a in s.accounts && a in entries
    requires
      entries[a] == s.state.entries[a] || (entries[a] == EntryOf(Again(s, a)) && EntryDated(s.state.entries[a]))
    ensures
      RegisteredAccount(Durable(entries, s.state.devices), a, Configuration(s.accounts[a])) == Again(s, a)
    ensures WithDevices(s.state.devices, Again(s, a).deviceIds) == s.state.devices
  {
    var account := s.accounts[a];
    assert MirrorOf(s.state.entries[a], account);
    assert RegisteredIds(s.state, a, Configuration(account)) == account.deviceIds;
    assert WithDevices(s.state.devices, account.deviceIds) == s.state.devices;
  }

  /** What restarting gives: each listed account as registered again, and the same devices. */
  ghost predicate RestartGives(s: System, order: seq<string>, again: System)
    requires forall a | a in order :: a in s.accounts
  {
    && again.state.devices == s.state.devices
    && (forall a :: a in again.accounts <==> a in order)
    && (forall a | a in order :: again.accounts[a] == Again(s, a))
    && (forall a :: a in again.state.entries <==> a in s.state.entries)
    && (forall a | a in s.state.entries ::
          again.state.entries[a] == if a in order then EntryOf(Again(s, a)) else s.state.entries[a])
  }

  /** Every account is listed once, or no entry holds the "never set" instant, which a second
      registration would read differently. */
  ghost predicate Repeatable(s: System, order: seq<string>) {
    (forall i, j | 0 <= i < j < |order| :: order[i] != order[j]) || EntriesDated(s.state.entries)
  }

  lemma OneMoreRegistered(s: System, front: seq<string>, a: string, before: System)
    requires Mirrored(s) && Known(s) && a in s.accounts && forall b | b in front :: b in s.accounts
    requires RestartGives(s, front, before) && (a !in front || EntryDated(s.state.entries[a]))
    ensures RestartGives(s, front + [a], Register(before, a, Configuration(s.accounts[a])))
  {
    assert MirrorOf(s.state.entries[a], s.accounts[a]);
    AgainIsStable(s, before.state.entries, a);
    assert before.state == Durable(before.state.entries, s.state.devices);
  }

  lemma {:induction false} RestartGivesListed(s: System, order: seq<string>)
    requires Mirrored(s) && Known(s) && s.saved == s.state && forall a | a in order :: a in s.accounts
    requires Repeatable(s, order)
    ensures RestartGives(s, order, Restarted(s, order))
  {
    if order != [] {
      var front, a := order[..|order| - 1], order[|order| - 1];
      assert order == front + [a];
      RestartGivesListed(s, front);
      OneMoreRegistered(s, front, a, Restarted(s, front));
    }
  }

  lemma EntryReadsBack(s: System, a: string)
    requires Mirrored(s) && Known(s) && a in s.accounts && ReadsBack(s, a) && EntryDated(s.state.entries[a])
    ensures EntryOf(Again(s, a)) == s.state.entries[a]
  {
    RegistersAgainExactly(s, a);
    assert MirrorOf(s.state.entries[a], s.accounts[a]);
  }

  ghost predicate AllReadBack(s: System)
    requires Mirrored(s)
  {
    forall a | a in s.accounts :: ReadsBack(s, a)
  }

  /** Restarting from a saved state rebuilds the accounts exactly when each of them reads back,
      whatever the order in which they are registered. */
  lemma RestartsExactly(s: System, order: seq<string>)
    requires Mirrored(s) && Known(s) && s.saved == s.state && forall a :: a in order <==> a in s.accounts
    requires Repeatable(s, order)
    ensures Restarted(s, order).accounts == s.accounts <==> AllReadBack(s)
    ensures Restarted(s, order).state.devices == s.state.devices
  {
    var again := Restarted(s, order);
    RestartGivesListed(s, order);
    forall a | a in s.accounts ensures again.accounts[a] == s.accounts[a] <==> ReadsBack(s, a) {
      RegistersAgainExactly(s, a);
    }
  }

  /** Entries that read back are rewritten as they were. */
  lemma SameEntries(s: System, order: seq<string>, again: System)
    requires forall a | a in order :: a in s.accounts
    requires RestartGives(s, order, again)
    requires forall a | a in order && a in s.state.entries :: EntryOf(Again(s, a)) == s.state.entries[a]
    ensures again.state == s.state
  {
    assert again.state.entries == s.state.entries;
  }

  lemma RestartKeepsState(s: System, order: seq<string>)
    requires Mirrored(s) && Known(s) && s.saved == s.state && forall a :: a in order <==> a in s.accounts
    requires AllReadBack(s) && EntriesDated(s.state.entries)
    ensures Restarted(s, order).state == s.state
  {
    RestartGivesListed(s, order);
    forall a | a in order ensures EntryOf(Again(s, a)) == s.state.entries[a] {
      EntryReadsBack(s, a);
    }
    SameEntries(s, order, Restarted(s, order));
  }

  // ---- restarting reachable schedulers ----

  lemma SucceedPollKnown(config: Config, s: System, a: string, snapshots: seq<Snapshot>, groups: map<string, nat>,
                         now: Instant)
    requires Mirrored(s) && Known(s) && a in s.accounts
    ensures Known(SucceedPoll(config, s, a, snapshots, groups, now).s)
  {
    assert MirrorOf(s.state.entries[a], s.accounts[a]);
    RefreshAllShape(config, s.state.devices, Relevant(s.accounts[a].configured, snapshots), now);
  }

  lemma {:induction false} PollAllKnown(config: Config, s: System, due: seq<string>, answers: string -> Answer,
                                        now: Instant)
    requires Mirrored(s) && Known(s) && forall a | a in due :: a in s.accounts
    ensures Known(PollAll(config, s, due, answers, now).s)
  {
    if due != [] {
      var front, a := due[..|due| - 1], due[|due| - 1];
      PollAllKnown(config, s, front, answers, now);
      PollAllMirrored(config, s, front, answers, now);
      var before := PollAll(config, s, front, answers, now);
      if before.ok && answers(a).Found? {
        SucceedPollKnown(config, before.s, a, answers(a).snapshots, answers(a).groups, now);
      }
    }
  }

  lemma StepKnown(config: Config, s: System, op: Operation)
    requires Mirrored(s) && Known(s)
    ensures Known(Step(config, s, op))
  {
    match op
    case Ticking(now, answers, storeOk) =>
      PollAllKnown(config, s, Ascending(DueAccounts(config, s, now)), answers, now);
    case _ =>
  }

  lemma KnownKept(config: Config, state: Durable, run: seq<Operation>, n: nat)
    requires n < |run| && Known(After(config, Loaded(state), run, n))
    ensures Known(After(config, Loaded(state), run, n + 1))
  {
    EveryPollWaitsItsTurn(config, state, run, n);
    StepKnown(config, After(config, Loaded(state), run, n), run[n]);
  }

  /** Whatever was loaded, the devices of registered accounts are always known. */
  lemma {:induction false} ReachableKnown(config: Config, state: Durable, run: seq<Operation>, m: nat)
    requires m <= |run|
    ensures Mirrored(After(config, Loaded(state), run, m)) && Known(After(config, Loaded(state), run, m))
  {
    EveryPollWaitsItsTurn(config, state, run, m);
    if m > 0 {
      var n := m - 1;
      ReachableKnown(config, state, run, n);
      KnownKept(config, state, run, n);
    }
  }

  /** In every reachable state that is saved, restarting rebuilds the accounts, and so the same
      accounts are due at every time, exactly when each account reads back. */
  lemma ReachableRestartsExactly(config: Config, state: Durable, run: seq<Operation>, m: nat, order: seq<string>)
    requires m <= |run|
    requires After(config, Loaded(state), run, m).saved == After(config, Loaded(state), run, m).state
    requires forall a :: a in order <==> a in After(config, Loaded(state), run, m).accounts
    requires Repeatable(After(config, Loaded(state), run, m), order)
    ensures
      var s := After(config, Loaded(state), run, m);
      var again := Restarted(s, order);
      && Mirrored(s)
      && (again.accounts == s.accounts <==> AllReadBack(s))
      && (AllReadBack(s) ==> forall now: Instant :: DueAccounts(config, again, now) == DueAccounts(config, s, now))
  {
    ReachableKnown(config, state, run, m);
    RestartsExactly(After(config, Loaded(state), run, m), order);
  }

  /** With devices owned by one account each, every account reads back: restarting from a saved
      state rebuilds the same accounts and leaves the state as it was. */
  lemma RestartIsExact(config: Config, owner: string -> string, run: seq<Operation>, m: nat, order: seq<string>,
                       now: Instant)
    requires m <= |run| && HonestRun(config, owner, run, m)
    requires After(config, BLANK, run, m).saved == After(config, BLANK, run, m).state
    requires forall a :: a in order <==> a in After(config, BLANK, run, m).accounts
    ensures
      var s := After(config, BLANK, run, m);
      var again := Restarted(s, order);
      && again.accounts == s.accounts && again.state == s.state
      && DueAccounts(config, again, now) == DueAccounts(config, s, now)
  {
    var s := After(config, BLANK, run, m);
    ReachableSound(config, owner, run, m);
    SoundReadsBack(owner, s);
    RestartsExactly(s, order);
    RestartKeepsState(s, order);
  }

  lemma SoundReadsBack(owner: string -> string, s: System)
    requires Sound(owner, s)
    ensures AllReadBack(s)
  {
    forall a | a in s.accounts ensures ReadsBack(s, a) {
      assert EntryDated(s.state.entries[a]) && MirrorOf(s.state.entries[a], s.accounts[a]);
    }
  }
}
