// Concrete runs of the scheduler, from nothing, in which a promise fails; each meets the
// exact condition stated for it elsewhere.
module SchedulerExamples {
  import opened Core
  import opened Order
  import opened Scheduler
  import opened SchedulerBackoff
  import opened SchedulerDeadlines
  import opened SchedulerIsolation
  import opened SchedulerRecovery
  import opened SchedulerRequests
  import opened SchedulerRestart
  import Interval
  import Quality

  const CONFIG := Config(Seconds(15), Seconds(60), {}, 100.0)

  const DONE := Io(true, true)

  /** Nothing is known of the device's direction, so it is polled again after 150 seconds. */
  const CONTEXT := Interval.Context(
    false, false, false, false, false, false, false, false, false, false, false, false, None, 0.0,
    Interval.Unknown, false, false, None, 0.5, 120, 300, 30, 120, 0, 7200, 0)

  const PHONE := Snapshot("phone", None, false, false, None, CONTEXT, None, map[], true)

  lemma PhoneRefreshed(device: Device, now: Instant)
    requires !device.paused
    ensures
      RefreshDevice(CONFIG, device, PHONE, now)
      == (device.(nextUpdateAt := Some(now + Seconds(150)), tracks := map[]), true)
  {
    assert Ascending(CONFIG.trackedFromZones) == [];
    assert Restrict(device.tracks, {}) == map[];
    assert Interval.Decide(CONTEXT) == Ok(Interval.Decision(150, Interval.NeedInformation));
  }

  // ---- ticks over one or two accounts ----

  lemma TickOne(s: System, now: Instant, answers: string -> Answer, storeOk: bool)
    requires s.accounts.Keys == {"a"} && IsDue(CONFIG, s.accounts["a"], s.state.devices, now)
    ensures Tick(CONFIG, s, now, answers, storeOk) == Persisted(Poll(CONFIG, s, "a", answers("a"), now), storeOk)
  {
    assert DueAccounts(CONFIG, s, now) == {"a"};
    AscendingUnique(["a"], {"a"});
    PollOne(CONFIG, s, "a", answers, now);
  }

  lemma TickTwo(s: System, now: Instant, answers: string -> Answer, storeOk: bool)
    requires s.accounts.Keys == {"a", "b"}
    requires IsDue(CONFIG, s.accounts["a"], s.state.devices, now)
        && IsDue(CONFIG, s.accounts["b"], s.state.devices, now)
    requires UsableAnswer(CONFIG, s, answers, "a")
    ensures
      var first := Poll(CONFIG, s, "a", answers("a"), now).s;
      && first.accounts.Keys == s.accounts.Keys
      && Tick(CONFIG, s, now, answers, storeOk) == Persisted(Poll(CONFIG, first, "b", answers("b"), now), storeOk)
  {
    assert DueAccounts(CONFIG, s, now) == {"a", "b"};
    AscendingUnique(["a", "b"], {"a", "b"});
    PollKeepsAccounts(CONFIG, s, "a", answers("a"), now);
    PollOkExactly(CONFIG, s, "a", answers("a"), now);
    PollOne(CONFIG, s, "a", answers, now);
    assert ["a", "b"][..1] == ["a"];
  }

  lemma RegisterPhone()
    ensures
      Register(BLANK, "a", {"phone"})
      == System(map["a" := Account(Some({"phone"}), {"phone"}, MIN_UTC, 0)],
                Durable(map["a" := Entry({"phone"}, 0, None)], map["phone" := NEW_DEVICE]), BLANK.saved, [])
  {
    var devices := WithDevices(map[], {"phone"});
    assert devices == map["phone" := NEW_DEVICE];
    MaxErrorsBounds(Ascending({"phone"}), devices);
  }

  lemma RegisterTwo()
    ensures
      Register(Register(BLANK, "a", {}), "b", {})
      == System(map["a" := Account(None, {}, MIN_UTC, 0), "b" := Account(None, {}, MIN_UTC, 0)],
                Durable(map["a" := Entry({}, 0, None), "b" := Entry({}, 0, None)], map[]), BLANK.saved, [])
  {
    assert Ascending({}) == [];
    assert WithDevices(map[], {}) == map[];
  }

  // ---- runs from nothing ----

  /** The run, from nothing, ends in the state. */
  predicate Reaches(run: seq<Operation>, s: System) {
    After(CONFIG, BLANK, run, |run|) == s
  }

  lemma ReachesTwo(run: seq<Operation>)
    requires |run| == 2
    ensures Reaches(run, Step(CONFIG, Step(CONFIG, BLANK, run[0]), run[1]))
  {
    assert After(CONFIG, BLANK, run, 0) == BLANK;
    assert After(CONFIG, BLANK, run, 1) == Step(CONFIG, BLANK, run[0]);
  }

  lemma ReachesThree(run: seq<Operation>)
    requires |run| == 3
    ensures Reaches(run, Step(CONFIG, Step(CONFIG, Step(CONFIG, BLANK, run[0]), run[1]), run[2]))
  {
    assert After(CONFIG, BLANK, run, 0) == BLANK;
    assert After(CONFIG, BLANK, run, 1) == Step(CONFIG, BLANK, run[0]);
    assert After(CONFIG, BLANK, run, 2) == Step(CONFIG, After(CONFIG, BLANK, run, 1), run[1]);
  }

  lemma ReachesFour(run: seq<Operation>)
    requires |run| == 4
    ensures Reaches(run, Step(CONFIG, Step(CONFIG, Step(CONFIG, Step(CONFIG, BLANK, run[0]), run[1]), run[2]), run[3]))
  {
    assert After(CONFIG, BLANK, run, 0) == BLANK;
    assert After(CONFIG, BLANK, run, 1) == Step(CONFIG, BLANK, run[0]);
    assert After(CONFIG, BLANK, run, 2) == Step(CONFIG, After(CONFIG, BLANK, run, 1), run[1]);
    assert After(CONFIG, BLANK, run, 3) == Step(CONFIG, After(CONFIG, BLANK, run, 2), run[2]);
  }

  // ---- requests ----

  const PAUSED_PHONE := Amend(Register(BLANK, "a", {"phone"}), None, Pausing(), DONE)

  lemma PhonePaused()
    ensures PAUSED_PHONE.state.devices == map["phone" := NEW_DEVICE.(paused := true)]
    ensures PAUSED_PHONE.accounts == map["a" := Account(Some({"phone"}), {"phone"}, MIN_UTC, 0)]
  {
    RegisterPhone();
  }

  lemma LocatedIdle(now: Instant, t: Instant)
    ensures
      var s := LocateNow(PAUSED_PHONE, "a", now, DONE);
      "a" in s.accounts && !IsDue(CONFIG, s.accounts["a"], s.state.devices, t)
  {
    PhonePaused();
    var s := LocateNow(PAUSED_PHONE, "a", now, DONE);
    assert s.state.devices.Keys == {"phone"} && s.state.devices["phone"].paused;
  }

  /** A located account whose only device is paused is not due, then or ever. */
  lemma LocatedNeverDue(now: Instant) returns (run: seq<Operation>, s: System)
    ensures run == [Registering("a", {"phone"}), Pause(None, DONE), Locating("a", now, DONE)] && Reaches(run, s)
    ensures "a" in s.accounts && forall t: Instant :: !IsDue(CONFIG, s.accounts["a"], s.state.devices, t)
  {
    run := [Registering("a", {"phone"}), Pause(None, DONE), Locating("a", now, DONE)];
    ReachesThree(run);
    s := LocateNow(PAUSED_PHONE, "a", now, DONE);
    LocatedIdle(now, now);
    forall t: Instant ensures !IsDue(CONFIG, s.accounts["a"], s.state.devices, t) {
      LocatedIdle(now, t);
    }
  }

  const FAILING: string -> Answer := (_: string) => Failure(true)

  /** The scheduler after the phone's only account has failed once, and one more operation. */
  lemma PhoneFailed(now: Instant, op: Operation) returns (s: System)
    ensures Reaches([Registering("a", {"phone"}), Ticking(now, FAILING, true), op], Step(CONFIG, s, op))
    ensures s.accounts == map["a" := Account(Some({"phone"}), {"phone"}, now + Seconds(5), 1)]
    ensures s.state.devices.Keys == {"phone"}
  {
    RegisterPhone();
    var one := Register(BLANK, "a", {"phone"});
    assert DeviceDue(one.state.devices["phone"], now + CONFIG.prefetch);
    TickOne(one, now, FAILING, true);
    PhoneFails(one, now);
    s := Tick(CONFIG, one, now, FAILING, true);
    FailureReached(now, op);
  }

  lemma FailureReached(now: Instant, op: Operation)
    ensures
      Reaches([Registering("a", {"phone"}), Ticking(now, FAILING, true), op],
              Step(CONFIG, Tick(CONFIG, Register(BLANK, "a", {"phone"}), now, FAILING, true), op))
  {
    ReachesThree([Registering("a", {"phone"}), Ticking(now, FAILING, true), op]);
  }

  lemma PhoneFails(s: System, now: Instant)
    requires s.accounts == map["a" := Account(Some({"phone"}), {"phone"}, MIN_UTC, 0)]
    requires s.state.devices.Keys == {"phone"}
    ensures
      var after := FailPoll(s, "a", now);
      && after.accounts == map["a" := Account(Some({"phone"}), {"phone"}, now + Seconds(5), 1)]
      && after.state.devices.Keys == {"phone"}
  {
  }

  /** An account in error is due although its only device is paused. */
  lemma PausedYetDue(now: Instant) returns (run: seq<Operation>, s: System)
    ensures run == [Registering("a", {"phone"}), Ticking(now, FAILING, true), Pause(None, DONE)] && Reaches(run, s)
    ensures forall d | d in s.state.devices :: s.state.devices[d].paused
    ensures "a" in s.accounts && IsDue(CONFIG, s.accounts["a"], s.state.devices, now + Seconds(5))
  {
    run := [Registering("a", {"phone"}), Ticking(now, FAILING, true), Pause(None, DONE)];
    var failed := PhoneFailed(now, Pause(None, DONE));
    PausingFailed(failed, now + Seconds(5));
    s := Amend(failed, None, Pausing(), DONE);
  }

  lemma PausingFailed(s: System, at: Instant)
    requires "a" in s.accounts && s.accounts["a"].errorCount == 1 && s.accounts["a"].nextDiscoveryAt == at
    ensures
      var after := Amend(s, None, Pausing(), DONE);
      && after.accounts == s.accounts && (forall d | d in after.state.devices :: after.state.devices[d].paused)
      && IsDue(CONFIG, s.accounts["a"], after.state.devices, at)
  {
    PauseAllSilencesExactly(CONFIG, s, "a", DONE, at);
  }

  /** Resumed, but not due. */
  predicate ResumedIdle(s: System, at: Instant) {
    && s.state.devices.Keys == {"phone"} && !s.state.devices["phone"].paused
    && s.state.devices["phone"].nextUpdateAt == Some(at)
    && "a" in s.accounts && !IsDue(CONFIG, s.accounts["a"], s.state.devices, at)
  }

  lemma ResumingFailed(s: System, at: Instant)
    requires "a" in s.accounts && s.accounts["a"].errorCount == 1 && s.accounts["a"].nextDiscoveryAt > at
    requires s.accounts["a"].deviceIds == {"phone"} && s.state.devices.Keys == {"phone"}
    ensures ResumedIdle(Step(CONFIG, s, Resume(None, at, DONE)), at)
  {
    ResumeMakesDueExactly(CONFIG, s, "a", None, at, DONE, "phone");
    var after := Step(CONFIG, s, Resume(None, at, DONE));
    assert after.state.devices["phone"] == Resuming(at)(s.state.devices["phone"]);
  }

  /** A second after its failure, an account whose only device is resumed is still not due. */
  lemma ResumedNotDue(now: Instant) returns (at: Instant, s: System)
    ensures at == now + Seconds(1)
    ensures Reaches([Registering("a", {"phone"}), Ticking(now, FAILING, true), Resume(None, at, DONE)], s)
    ensures ResumedIdle(s, at)
  {
    at := now + Seconds(1);
    var failed := PhoneFailed(now, Resume(None, at, DONE));
    ResumingFailed(failed, at);
    s := Step(CONFIG, failed, Resume(None, at, DONE));
  }

  // ---- an answer that stops the tick ----

  /** A location whose accuracy is negative, as a provider may report it. */
  const NEGATIVE := Quality.Sample(Coordinates(0.0, 0.0), Some(-1.0), 0, Quality.Apple, false)

  function NegativeThen(others: Answer): string -> Answer {
    (account: string) => if account == "a" then Found([PHONE.(location := Some(NEGATIVE))], map[]) else others
  }

  /** Ticks at the given times, in each of which account "a" answers with a negative accuracy. */
  function NegativeTicks(times: seq<Instant>, others: Answer): seq<Operation> {
    seq(|times|, k requires 0 <= k < |times| => Ticking(times[k], NegativeThen(others), true))
  }

  const BOTH: seq<Operation> := [Registering("a", {}), Registering("b", {})]

  lemma NegativeIsUnusable(s: System, others: Answer)
    requires "a" in s.accounts && s.accounts["a"].configured.None?
    ensures Quality.Evaluate(Quality.Policy(CONFIG.gpsThresholdMeters, 120, 2), None, NEGATIVE, 0, 0).Err?
    ensures !UsableAnswer(CONFIG, s, NegativeThen(others), "a")
  {
    var bad := PHONE.(location := Some(NEGATIVE));
    assert bad in NegativeThen(others)("a").snapshots && !Refreshable(CONFIG, bad);
  }

  /** One account's negative accuracy, which cannot be judged, keeps the other account from
      being polled and the state from being saved, in the first tick and in all that follow,
      although the other account is due all the time. */
  lemma NegativeAccuracyStopsTicks(times: seq<Instant>, others: Answer) returns (registered: System)
    ensures Reaches(BOTH, registered)
    ensures
      var s := After(CONFIG, registered, NegativeTicks(times, others), |times|);
      && "b" in s.accounts && (forall t: Instant :: IsDue(CONFIG, s.accounts["b"], s.state.devices, t))
      && |s.log| == |times| && (forall i | 0 <= i < |s.log| :: s.log[i].account == "a")
      && s.saved == BLANK.saved
  {
    ReachesTwo(BOTH);
    RegisterTwo();
    registered := Register(Register(BLANK, "a", {}), "b", {});
    NegativeIsUnusable(registered, others);
    StuckOnNegative(registered, times, others);
  }

  lemma NegativeStuck(s: System, now: Instant, others: Answer)
    requires "a" in s.accounts && s.accounts["a"] == Account(None, {}, MIN_UTC, 0)
    requires !UsableAnswer(CONFIG, s, NegativeThen(others), "a")
    ensures Stuck(CONFIG, s, Ticking(now, NegativeThen(others), true), "a", None)
  {
  }

  lemma StuckOnNegative(s: System, times: seq<Instant>, others: Answer)
    requires s.accounts == map["a" := Account(None, {}, MIN_UTC, 0), "b" := Account(None, {}, MIN_UTC, 0)]
    requires !UsableAnswer(CONFIG, s, NegativeThen(others), "a")
    ensures OnlyPolled(s, After(CONFIG, s, NegativeTicks(times, others), |times|), "a", |times|, None)
  {
    var ticks := NegativeTicks(times, others);
    assert forall b | b in s.accounts :: StringLe("a", b);
    forall k | 0 <= k < |times| ensures Stuck(CONFIG, s, ticks[k], "a", None) {
      NegativeStuck(s, times[k], others);
    }
    FirstStaysFirst(CONFIG, s, ticks, |times|, "a", None);
    EveryTickStops(CONFIG, s, ticks, |times|, "a", None);
  }

  // ---- a failure that is not announced ----

  const REGISTER_A := Operated(Registering("a", {}))

  function Unannounced(now: Instant): seq<Happening> {
    var failing := Operated(Ticking(now, (_: string) => Failure(false), true));
    [REGISTER_A, failing, Interrupted, REGISTER_A, failing]
  }

  lemma RegisterAlone(state: Durable, log: seq<Note>)
    requires state == Durable(map[], map[])
    ensures
      Register(System(map[], state, state, log), "a", {})
      == System(map["a" := Account(None, {}, MIN_UTC, 0)], Durable(map["a" := Entry({}, 0, None)], map[]), state, log)
  {
    assert Ascending({}) == [];
    assert WithDevices(map[], {}) == map[];
  }

  lemma FailUnannounced(log: seq<Note>, now: Instant, answers: string -> Answer)
    requires answers("a") == Failure(false)
    ensures
      var before := Register(System(map[], BLANK.saved, BLANK.saved, log), "a", {});
      var after := Tick(CONFIG, before, now, answers, true);
      after.log == log + [Polled("a", now, true)] && after.saved == BLANK.saved
  {
    RegisterAlone(BLANK.saved, log);
    TickOne(Register(System(map[], BLANK.saved, BLANK.saved, log), "a", {}), now, answers, true);
  }

  /** A failure that cannot be announced is not saved, and a restart forgets its wait: the
      account is polled again at the very time of the failure. */
  lemma UnannouncedFailureForgotten(now: Instant)
    ensures
      var log := Lived(CONFIG, BLANK, Unannounced(now), 5).log;
      log == [Polled("a", now, true), Polled("a", now, true)] && !RespectsBackoff(log)
  {
    var life := Unannounced(now);
    var answers := life[1].op.answers;
    var once := [Polled("a", now, true)];
    assert Lived(CONFIG, BLANK, life, 0) == BLANK;
    assert Lived(CONFIG, BLANK, life, 1) == Register(BLANK, "a", {});
    var two := Lived(CONFIG, BLANK, life, 2);
    assert two == Tick(CONFIG, Register(BLANK, "a", {}), now, answers, true);
    FailUnannounced([], now, answers);
    assert two.log == once && two.saved == BLANK.saved;
    var three := Lived(CONFIG, BLANK, life, 3);
    assert three == System(map[], BLANK.saved, BLANK.saved, once);
    assert Lived(CONFIG, BLANK, life, 4) == Register(three, "a", {});
    FailUnannounced(once, now, answers);
    assert Lived(CONFIG, BLANK, life, 5) == Tick(CONFIG, Register(three, "a", {}), now, answers, true);
    PolledTwice(once, now);
  }

  lemma PolledTwice(once: seq<Note>, now: Instant)
    requires once == [Polled("a", now, true)]
    ensures !RespectsBackoff(once + [Polled("a", now, true)])
  {
    var log := once + [Polled("a", now, true)];
    assert once[..0] == [] && log[..1] == once;
    assert Streak(once, "a") == 1;
    assert !MayPoll(log[..1], log[1].account, log[1].at);
  }

  // ---- two accounts that share a device ----

  const SHARING := 150

  /** Both accounts answer for the phone. When it is due again, the second one fails. */
  function Sharing(now: Instant): seq<Operation> {
    var phone := Found([PHONE], map[]);
    BOTH + [
      Ticking(now, (_: string) => phone, true),
      Ticking(now + Seconds(SHARING), (account: string) => if account == "a" then phone else Failure(true), true)]
  }

  function PhoneAt(at: Instant): Device {
    Device(Some(at), false, 0, map[], None)
  }

  /** The scheduler after a poll that found the phone, which makes it the account's device. */
  function Finding(s: System, a: string, now: Instant): System {
    var at: Instant := now + Seconds(150);
    System(s.accounts[a := Account(None, {"phone"}, at, 0)],
           Durable(s.state.entries[a := Entry({"phone"}, 0, Some(at))], map["phone" := PhoneAt(at)]),
           s.saved, s.log + [Polled(a, now, false)])
  }

  predicate OnlyPhone(devices: map<string, Device>) {
    devices.Keys <= {"phone"} && ("phone" in devices ==> !devices["phone"].paused)
  }

  lemma PhoneAlone()
    ensures Ascending({"phone"}) == ["phone"] && [PHONE][..0] == [] && ["phone"][..0] == []
    ensures Relevant(None, [PHONE]) == [PHONE] && SnapshotIds([PHONE]) == {"phone"}
  {
    assert [PHONE][..0] == [];
    AscendingUnique(["phone"], {"phone"});
  }

  lemma RefreshPhone(devices: map<string, Device>, now: Instant)
    requires OnlyPhone(devices)
    ensures
      var refresh := RefreshAll(CONFIG, devices, [PHONE], now);
      && refresh.ok && refresh.devices.Keys == {"phone"}
      && refresh.devices["phone"]
         == KnownOrNew(devices, "phone").(nextUpdateAt := Some(now + Seconds(150)), tracks := map[])
  {
    PhoneAlone();
    PhoneRefreshed(KnownOrNew(devices, "phone"), now);
    assert RefreshAll(CONFIG, devices, [], now) == Refresh(devices, true);
  }

  lemma FinishPhone(s: System, a: string, now: Instant)
    requires a in s.accounts && s.accounts[a].configured.None? && s.state.devices.Keys == {"phone"}
    requires
      var phone := s.state.devices["phone"];
      phone == PhoneAt(now + Seconds(150)).(errorCount := phone.errorCount)
    ensures
      FinishPoll(CONFIG, s, a, {"phone"}, now)
      == Finding(s, a, now).(log := s.log)
  {
    var at: Instant := now + Seconds(150);
    var devices := UpdateDevices(s.state.devices, {"phone"}, Settled(now + CONFIG.defaultInterval));
    assert devices == map["phone" := PhoneAt(at)];
    PhoneAlone();
    assert EarliestUpdate([], devices) == None;
    assert EarliestUpdate(["phone"], devices) == Some(at);
  }

  lemma FoundPhone(s: System, a: string, now: Instant)
    requires a in s.accounts && s.accounts[a].configured.None? && OnlyPhone(s.state.devices)
    ensures Poll(CONFIG, s, a, Found([PHONE], map[]), now) == Outcome(Finding(s, a, now), true)
  {
    PhoneAlone();
    RefreshPhone(s.state.devices, now);
    var refresh := RefreshAll(CONFIG, s.state.devices, [PHONE], now);
    var regrouped := Regrouped(refresh.devices, map[]);
    assert regrouped.Keys == {"phone"};
    var polled := s.log + [Polled(a, now, false)];
    FinishPhone(s.(state := s.state.(devices := regrouped), log := polled), a, now);
  }

  /** The scheduler after both accounts have found the phone. */
  function Shared(at: Instant, log: seq<Note>): System {
    var account, entry := Account(None, {"phone"}, at, 0), Entry({"phone"}, 0, Some(at));
    var state := Durable(map["a" := entry, "b" := entry], map["phone" := PhoneAt(at)]);
    System(map["a" := account, "b" := account], state, state, log)
  }

  lemma PhoneIsUsable(s: System, answers: string -> Answer)
    requires "a" in s.accounts && answers("a") == Found([PHONE], map[])
    ensures UsableAnswer(CONFIG, s, answers, "a")
  {
    assert Interval.Decide(CONTEXT).Ok?;
  }

  lemma TwoKeys<T>(m: map<string, T>, x: T, y: T)
    requires m.Keys <= {"a", "b"}
    ensures m["a" := x]["b" := y] == map["a" := x, "b" := y]
  {
  }

  lemma BothFindPhone(s: System, now: Instant, answers: string -> Answer)
    requires s.accounts.Keys == {"a", "b"} && s.state.entries.Keys <= {"a", "b"} && OnlyPhone(s.state.devices)
    requires s.accounts["a"].configured.None? && s.accounts["b"].configured.None?
    requires IsDue(CONFIG, s.accounts["a"], s.state.devices, now)
        && IsDue(CONFIG, s.accounts["b"], s.state.devices, now)
    requires answers("a") == answers("b") == Found([PHONE], map[])
    ensures
      Tick(CONFIG, s, now, answers, true)
      == Shared(now + Seconds(150), s.log + [Polled("a", now, false)] + [Polled("b", now, false)])
  {
    var at: Instant := now + Seconds(150);
    PhoneIsUsable(s, answers);
    TickTwo(s, now, answers, true);
    FoundPhone(s, "a", now);
    FoundPhone(Finding(s, "a", now), "b", now);
    var account, entry := Account(None, {"phone"}, at, 0), Entry({"phone"}, 0, Some(at));
    TwoKeys(s.accounts, account, account);
    TwoKeys(s.state.entries, entry, entry);
  }

  /** The scheduler after the second account has failed. */
  function Broken(at: Instant, log: seq<Note>): System {
    var next, retry: Instant := at + Seconds(150), at + Seconds(5);
    var state := Durable(
      map["a" := Entry({"phone"}, 0, Some(next)), "b" := Entry({"phone"}, 1, Some(retry))],
      map["phone" := PhoneAt(retry).(errorCount := 1)]);
    System(map["a" := Account(None, {"phone"}, next, 0), "b" := Account(None, {"phone"}, retry, 1)], state, state, log)
  }

  lemma SharedTick(at: Instant, log: seq<Note>, answers: string -> Answer)
    requires answers("a") == Found([PHONE], map[]) && answers("b") == Failure(true)
    ensures
      var first := Finding(Shared(at, log), "a", at);
      Tick(CONFIG, Shared(at, log), at, answers, true)
      == Persisted(Outcome(FailPoll(first, "b", at), true), true)
  {
    var s := Shared(at, log);
    assert DeviceDue(s.state.devices["phone"], at + CONFIG.prefetch);
    PhoneIsUsable(s, answers);
    TickTwo(s, at, answers, true);
    FoundPhone(s, "a", at);
  }

  lemma SecondFails(at: Instant, log: seq<Note>, answers: string -> Answer)
    requires answers("a") == Found([PHONE], map[]) && answers("b") == Failure(true)
    ensures
      Tick(CONFIG, Shared(at, log), at, answers, true)
      == Broken(at, log + [Polled("a", at, false)] + [Polled("b", at, true)])
  {
    SharedTick(at, log, answers);
    SecondPhoneFails(Shared(at, log), at);
  }

  lemma SecondPhoneFails(s: System, at: Instant)
    requires s.accounts.Keys == {"a", "b"} && s.state.entries.Keys == {"a", "b"}
    requires s.accounts["b"] == Account(None, {"phone"}, at, 0)
    ensures
      var after := FailPoll(Finding(s, "a", at), "b", at);
      after.(saved := after.state) == Broken(at, s.log + [Polled("a", at, false)] + [Polled("b", at, true)])
  {
    var first := Finding(s, "a", at);
    var next, retry: Instant := at + Seconds(150), at + Seconds(5);
    assert UpdateDevices(first.state.devices, {"phone"}, Penalized(1, retry))
      == map["phone" := PhoneAt(retry).(errorCount := 1)];
    TwoKeys(s.accounts, Account(None, {"phone"}, next, 0), Account(None, {"phone"}, retry, 1));
    TwoKeys(s.state.entries, Entry({"phone"}, 0, Some(next)), Entry({"phone"}, 1, Some(retry)));
  }

  lemma SharingReached(now: Instant) returns (log: seq<Note>)
    ensures Reaches(Sharing(now), Broken(now + Seconds(SHARING), log))
  {
    var run := Sharing(now);
    ReachesFour(run);
    RegisterTwo();
    BothFindPhone(Register(Register(BLANK, "a", {}), "b", {}), now, run[2].answers);
    var found := [] + [Polled("a", now, false)] + [Polled("b", now, false)];
    var at: Instant := now + Seconds(SHARING);
    SecondFails(at, found, run[3].answers);
    log := found + [Polled("a", at, false)] + [Polled("b", at, true)];
  }

  lemma BrokenReadsBackWrong(at: Instant, log: seq<Note>)
    ensures
      var s := Broken(at, log);
      && Mirrored(s) && Known(s) && EntriesDated(s.state.entries)
      && Again(s, "a").errorCount == 1 && Again(s, "a").nextDiscoveryAt == at + Seconds(150)
  {
    var s := Broken(at, log);
    MaxErrorsBounds(Ascending({"phone"}), s.state.devices);
    assert "phone" in Ascending({"phone"});
    assert WithDevices(s.state.devices, {"phone"}) == s.state.devices;
  }

  lemma BrokenDueLater(at: Instant, log: seq<Note>)
    ensures
      var s := Broken(at, log);
      var again := Restarted(s, ["a", "b"]);
      "a" in DueAccounts(CONFIG, s, at + Seconds(5)) && "a" !in DueAccounts(CONFIG, again, at + Seconds(5))
  {
    var s := Broken(at, log);
    assert DeviceDue(s.state.devices["phone"], at + Seconds(5) + CONFIG.prefetch);
    BrokenReadsBackWrong(at, log);
    RestartGivesListed(s, ["a", "b"]);
    assert Restarted(s, ["a", "b"]).accounts["a"] == Again(s, "a");
  }

  /** Two accounts whose answers share a device do not survive a restart: the failure of one is
      read back as an error of the other, which is then due later than it was. */
  lemma SharedDeviceBreaksRestart(now: Instant) returns (s: System)
    ensures Reaches(Sharing(now), s) && s.saved == s.state && s.accounts.Keys == {"a", "b"}
    ensures
      var at: Instant := now + Seconds(SHARING + 5);
      "a" in DueAccounts(CONFIG, s, at) && "a" !in DueAccounts(CONFIG, Restarted(s, ["a", "b"]), at)
  {
    var log := SharingReached(now);
    s := Broken(now + Seconds(SHARING), log);
    BrokenDueLater(now + Seconds(SHARING), log);
  }
}
