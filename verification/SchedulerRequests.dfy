// What the requests of a user do to the decision to poll: pausing, resuming and scheduling
// devices, and what they cannot do to an account that is waiting after a failure.
module SchedulerRequests {
  import opened Core
  import Order
  import opened Scheduler
  import opened SchedulerBackoff

  /** With every device paused, an account is still polled exactly when it is in error or has
      no devices yet, at the time its next discovery says. */
  lemma PauseAllSilencesExactly(config: Config, s: System, a: string, io: Io, t: Instant)
    requires a in s.accounts
    ensures
      var account := s.accounts[a];
      IsDue(config, account, Amend(s, None, Pausing(), io).state.devices, t)
      <==> (account.errorCount > 0 && account.nextDiscoveryAt <= t)
           || (account.errorCount == 0 && account.deviceIds == {} && account.nextDiscoveryAt <= t + config.prefetch)
  {
    var devices := Amend(s, None, Pausing(), io).state.devices;
    forall d | d in devices ensures devices[d].paused {
      assert devices[d] == Pausing()(s.state.devices[d]);
    }
  }

  /** A device with a chosen deadline makes its account due exactly when that deadline, or some
      other device, comes within the prefetch window. */
  lemma ScheduledDueExactly(config: Config, s: System, a: string, d: string, at: Instant, io: Io, t: Instant)
    requires a in s.accounts && d in s.accounts[a].deviceIds && d in s.state.devices
    requires s.accounts[a].errorCount == 0 && !s.state.devices[d].paused
    ensures
      IsDue(config, s.accounts[a], Amend(s, Some(d), Scheduling(at), io).state.devices, t)
      <==> at <= t + config.prefetch
           || exists e :: e in s.accounts[a].deviceIds && e != d && e in s.state.devices
                          && !s.state.devices[e].paused
                          && (s.state.devices[e].nextUpdateAt.Some? ==>
                                s.state.devices[e].nextUpdateAt.value <= t + config.prefetch)
  {
    var devices := Amend(s, Some(d), Scheduling(at), io).state.devices;
    assert devices[d] == Scheduling(at)(s.state.devices[d]);
    assert forall e | e in s.state.devices && e != d :: devices[e] == s.state.devices[e];
  }

  /** After a known device is resumed its account is due at once exactly when it is not in error,
      or has waited out its failures already. */
  lemma ResumeMakesDueExactly(config: Config, s: System, a: string, device: Option<string>, now: Instant, io: Io,
                              d: string)
    requires a in s.accounts && d in s.accounts[a].deviceIds && d in s.state.devices
    requires device.None? || device == Some(d)
    ensures
      IsDue(config, s.accounts[a], Amend(s, device, Resuming(now), io).state.devices, now)
      <==> s.accounts[a].errorCount == 0 || s.accounts[a].nextDiscoveryAt <= now
  {
    var devices := Amend(s, device, Resuming(now), io).state.devices;
    assert d in devices && devices[d] == Resuming(now)(s.state.devices[d]);
  }

  /** Resuming leaves no trace of a pause before it. */
  lemma ResumeForgetsPause(s: System, device: Option<string>, now: Instant, pauseIo: Io)
    ensures
      Amend(Amend(s, device, Pausing(), pauseIo), device, Resuming(now), Io(true, true))
      == Amend(s, device, Resuming(now), Io(true, true))
  {
    if KnownDevice(s.state.devices, device) {
      var paused := Amend(s, device, Pausing(), pauseIo);
      var selected := Selected(s.state.devices, device);
      assert Selected(paused.state.devices, device) == selected;
      assert UpdateDevices(paused.state.devices, selected, Resuming(now))
          == UpdateDevices(s.state.devices, selected, Resuming(now));
    }
  }

  predicate ChangesDevicesOnly(op: Operation) {
    op.Pause? || op.Resume? || op.Schedule? || op.ExternalUpdate?
  }

  /** Pausing, resuming, scheduling and external updates change no account, so an account in
      error is due exactly when it was due before. */
  lemma RequestsCannotHastenRetry(config: Config, s: System, op: Operation, a: string, t: Instant)
    requires ChangesDevicesOnly(op) && a in s.accounts && s.accounts[a].errorCount > 0
    ensures Step(config, s, op).accounts == s.accounts && Step(config, s, op).state.entries == s.state.entries
    ensures
      var after := Step(config, s, op);
      IsDue(config, after.accounts[a], after.state.devices, t) <==> IsDue(config, s.accounts[a], s.state.devices, t)
  {
  }

  // ---- a paused account sleeps ----

  /** Devices are never forgotten and stay paused or not as they were; new ones are not paused. */
  ghost predicate KeepsPaused(before: map<string, Device>, after: map<string, Device>) {
    && (forall d | d in before :: d in after && after[d].paused == before[d].paused)
    && forall d | d in after && d !in before :: !after[d].paused
  }

  lemma RefreshOneKeepsPaused(config: Config, devices: map<string, Device>, snapshot: Snapshot, now: Instant)
    ensures KeepsPaused(devices, RefreshOne(config, devices, snapshot, now).devices)
  {
  }

  lemma {:induction false} RefreshAllKeepsPaused(config: Config, devices: map<string, Device>,
                                                 snapshots: seq<Snapshot>, now: Instant)
    ensures KeepsPaused(devices, RefreshAll(config, devices, snapshots, now).devices)
  {
    if snapshots != [] {
      var front := snapshots[..|snapshots| - 1];
      RefreshAllKeepsPaused(config, devices, front, now);
      var before := RefreshAll(config, devices, front, now);
      if before.ok {
        RefreshOneKeepsPaused(config, before.devices, snapshots[|snapshots| - 1], now);
      }
    }
  }

  lemma PollKeepsPaused(config: Config, s: System, a: string, answer: Answer, now: Instant)
    requires a in s.accounts
    ensures KeepsPaused(s.state.devices, Poll(config, s, a, answer, now).s.state.devices)
  {
    if answer.Found? {
      RefreshAllKeepsPaused(config, s.state.devices, Relevant(s.accounts[a].configured, answer.snapshots), now);
    }
  }

  lemma {:induction false} PollAllKeepsPaused(config: Config, s: System, due: seq<string>, answers: string -> Answer,
                                              now: Instant)
    requires forall a | a in due :: a in s.accounts
    ensures KeepsPaused(s.state.devices, PollAll(config, s, due, answers, now).s.state.devices)
  {
    if due != [] {
      var front, a := due[..|due| - 1], due[|due| - 1];
      PollAllKeepsPaused(config, s, front, answers, now);
      var before := PollAll(config, s, front, answers, now);
      if before.ok {
        PollKeepsPaused(config, before.s, a, answers(a), now);
      }
    }
  }

  lemma ExternalKeepsPaused(config: Config, s: System, snapshot: Snapshot, zoneExit: bool, groups: map<string, nat>,
                            io: Io, now: Instant)
    ensures KeepsPaused(s.state.devices, External(config, s, snapshot, zoneExit, groups, io, now).state.devices)
  {
    RefreshOneKeepsPaused(config, s.state.devices, snapshot, now);
  }

  /** The account is not in error, and its devices, of which there are some, are all known and paused. */
  ghost predicate Asleep(s: System, a: string, ids: set<string>) {
    && a in s.accounts && s.accounts[a].errorCount == 0 && s.accounts[a].deviceIds == ids && ids != {}
    && forall d | d in ids :: d in s.state.devices && s.state.devices[d].paused
  }

  /** Neither resumes one of the devices nor registers the account anew. */
  predicate LetsSleep(op: Operation, a: string, ids: set<string>) {
    match op
    case Registering(account, _) => account != a
    case Resume(device, _, _) => device.Some? && device.value !in ids
    case _ => true
  }

  ghost predicate NotPolled(a: string, before: seq<Note>, after: seq<Note>) {
    && before <= after
    && forall i | |before| <= i < |after| :: !(after[i].Polled? && after[i].account == a)
  }

  lemma TickLetsSleep(config: Config, s: System, now: Instant, answers: string -> Answer, storeOk: bool, a: string,
                      ids: set<string>)
    requires Asleep(s, a, ids)
    ensures Asleep(Tick(config, s, now, answers, storeOk), a, ids)
        && NotPolled(a, s.log, Tick(config, s, now, answers, storeOk).log)
  {
    var due := Order.Ascending(DueAccounts(config, s, now));
    assert a !in due;
    PollAllTouchesListed(config, s, due, answers, now);
    PollAllKeepsPaused(config, s, due, answers, now);
  }

  lemma StepLetsSleep(config: Config, s: System, op: Operation, a: string, ids: set<string>)
    requires Asleep(s, a, ids) && LetsSleep(op, a, ids)
    ensures Asleep(Step(config, s, op), a, ids) && NotPolled(a, s.log, Step(config, s, op).log)
  {
    match op
    case Ticking(now, answers, storeOk) => TickLetsSleep(config, s, now, answers, storeOk, a, ids);
    case ExternalUpdate(snapshot, zoneExit, groups, io, now) =>
      ExternalKeepsPaused(config, s, snapshot, zoneExit, groups, io, now);
    case _ =>
  }

  lemma SleepKept(config: Config, s: System, run: seq<Operation>, n: nat, a: string, ids: set<string>)
    requires n < |run| && Asleep(After(config, s, run, n), a, ids) && LetsSleep(run[n], a, ids)
    requires NotPolled(a, s.log, After(config, s, run, n).log)
    ensures Asleep(After(config, s, run, n + 1), a, ids) && NotPolled(a, s.log, After(config, s, run, n + 1).log)
  {
    StepLetsSleep(config, After(config, s, run, n), run[n], a, ids);
  }

  /** Once all its devices are paused, an account that is not in error is never polled, whatever
      happens to it and to the others, until one of the devices is resumed or the account is
      registered anew. */
  lemma {:induction false} PausedAccountSleeps(config: Config, s: System, run: seq<Operation>, m: nat, a: string,
                                               ids: set<string>)
    requires m <= |run| && Asleep(s, a, ids) && forall k | 0 <= k < m :: LetsSleep(run[k], a, ids)
    ensures Asleep(After(config, s, run, m), a, ids) && NotPolled(a, s.log, After(config, s, run, m).log)
  {
    if m > 0 {
      var n := m - 1;
      PausedAccountSleeps(config, s, run, n, a, ids);
      SleepKept(config, s, run, n, a, ids);
    }
  }

  // ---- which devices are paused ----

  /** A request to pause that covers the device, or to resume, one device or all. */
  predicate Covers(device: Option<string>, d: string) {
    device.None? || device.value == d
  }

  /** The last request that covered the device, when it was known, was one to pause. */
  ghost predicate LastPaused(config: Config, state: Durable, run: seq<Operation>, m: nat, d: string)
    requires m <= |run|
  {
    if m == 0 then d in state.devices && state.devices[d].paused
    else
      var before := LastPaused(config, state, run, m - 1, d);
      var known := d in After(config, Loaded(state), run, m - 1).state.devices;
      match run[m - 1]
      case Pause(device, _) => if known && Covers(device, d) then true else before
      case Resume(device, _, _) => if known && Covers(device, d) then false else before
      case _ => before
  }

  lemma RegisterKeepsPaused(s: System, a: string, configured: set<string>)
    ensures KeepsPaused(s.state.devices, Register(s, a, configured).state.devices)
  {
  }

  lemma LocateKeepsPaused(s: System, a: string, now: Instant, io: Io)
    ensures KeepsPaused(s.state.devices, LocateNow(s, a, now, io).state.devices)
  {
  }

  lemma ScheduleKeepsPaused(s: System, d: string, at: Instant, io: Io)
    ensures KeepsPaused(s.state.devices, Amend(s, Some(d), Scheduling(at), io).state.devices)
  {
  }

  lemma QuietKeepsPaused(config: Config, s: System, op: Operation)
    requires !op.Pause? && !op.Resume?
    ensures KeepsPaused(s.state.devices, Step(config, s, op).state.devices)
  {
    match op
    case Registering(a, configured) => RegisterKeepsPaused(s, a, configured);
    case Ticking(now, answers, storeOk) =>
      PollAllKeepsPaused(config, s, Order.Ascending(DueAccounts(config, s, now)), answers, now);
    case Locating(a, now, io) => LocateKeepsPaused(s, a, now, io);
    case Schedule(d, at, io) => ScheduleKeepsPaused(s, d, at, io);
    case ExternalUpdate(snapshot, zoneExit, groups, io, now) =>
      ExternalKeepsPaused(config, s, snapshot, zoneExit, groups, io, now);
  }

  lemma SwitchesPaused(config: Config, s: System, op: Operation, d: string)
    requires op.Pause? || op.Resume?
    ensures
      var after := Step(config, s, op).state.devices;
      && (d in after <==> d in s.state.devices)
      && (d in after ==> after[d].paused == if Covers(op.device, d) then op.Pause? else s.state.devices[d].paused)
  {
    var selected := Selected(s.state.devices, op.device);
    assert d in s.state.devices ==> (d in selected <==> Covers(op.device, d));
    if op.Pause? {
      assert d in s.state.devices ==> Pausing()(s.state.devices[d]).paused;
    } else {
      assert d in s.state.devices ==> !Resuming(op.now)(s.state.devices[d]).paused;
    }
  }

  ghost predicate PausedAsRequested(config: Config, state: Durable, run: seq<Operation>, m: nat, d: string)
    requires m <= |run|
  {
    var devices := After(config, Loaded(state), run, m).state.devices;
    if d in devices then devices[d].paused == LastPaused(config, state, run, m, d)
    else !LastPaused(config, state, run, m, d)
  }

  lemma OneMoreRequest(config: Config, state: Durable, run: seq<Operation>, n: nat, m: nat, d: string)
    requires n < |run| && m == n + 1 && PausedAsRequested(config, state, run, n, d)
    ensures PausedAsRequested(config, state, run, m, d)
  {
    var s := After(config, Loaded(state), run, n);
    if run[n].Pause? || run[n].Resume? {
      SwitchesPaused(config, s, run[n], d);
    } else {
      QuietKeepsPaused(config, s, run[n]);
    }
  }

  /** In every run, a device is paused exactly when the last request that covered it was one to
      pause; nothing else pauses or resumes a device, and new devices are not paused. */
  lemma {:induction false} PausedIsLastRequest(config: Config, state: Durable, run: seq<Operation>, m: nat, d: string)
    requires m <= |run|
    ensures PausedAsRequested(config, state, run, m, d)
  {
    if m > 0 {
      var n := m - 1;
      PausedIsLastRequest(config, state, run, n, d);
      OneMoreRequest(config, state, run, n, m, d);
    }
  }
}
