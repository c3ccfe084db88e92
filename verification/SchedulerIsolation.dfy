// What one account's trouble does to the others. A provider failure stays within its account,
// but an answer that cannot be refreshed ends the tick: the accounts after it are not polled
// and nothing is saved.
module SchedulerIsolation {
  import opened Core
  import opened Order
  import opened Scheduler
  import opened SchedulerBackoff
  import opened SchedulerDeadlines
  import Interval
  import Quality

  /** A provider failure changes its own account, that account's entry and its devices, and
      nothing else; an account sharing no device is due exactly when it was before. */
  lemma FailureIsolated(config: Config, s: System, a: string, now: Instant)
    requires a in s.accounts
    ensures
      var after := FailPoll(s, a, now);
      && after.accounts.Keys == s.accounts.Keys
      && (forall b | b != a && b in s.accounts :: after.accounts[b] == s.accounts[b])
      && (forall b | b != a :: b in after.state.entries <==> b in s.state.entries)
      && (forall b | b != a && b in s.state.entries :: after.state.entries[b] == s.state.entries[b])
      && after.state.devices.Keys == s.state.devices.Keys
      && (forall d | d in s.state.devices && d !in s.accounts[a].deviceIds ::
            after.state.devices[d] == s.state.devices[d])
      && after.saved == s.saved
    ensures
      forall b, t: Instant | b != a && b in s.accounts && s.accounts[b].deviceIds !! s.accounts[a].deviceIds ::
        IsDue(config, s.accounts[b], FailPoll(s, a, now).state.devices, t)
        == IsDue(config, s.accounts[b], s.state.devices, t)
  {
  }

  // ---- which answers a tick gets past ----

  predicate Refreshable(config: Config, snapshot: Snapshot) {
    Decidable(config, snapshot) && snapshot.sinkOk
  }

  /** With distances and intervals in range, a device is refreshable exactly when its location
      can be judged, no later stage fails and its events go out. */
  lemma RefreshableExactly(config: Config, snapshot: Snapshot)
    requires Interval.ValidContext(snapshot.base)
    requires forall z | z in snapshot.targets :: Interval.ValidContext(snapshot.targets[z])
    ensures
      Refreshable(config, snapshot)
      <==> (snapshot.location.Some? ==> Quality.Judgeable(config.gpsThresholdMeters, snapshot.location.value))
           && !snapshot.stageFailed && snapshot.sinkOk
  {
  }

  /** A failure counts as long as it can be announced; an answer has to be refreshable for
      every device the account wants. */
  predicate Usable(config: Config, configured: Option<set<string>>, answer: Answer) {
    match answer
    case Failure(sinkOk) => sinkOk
    case Found(snapshots, _) =>
      forall snapshot | snapshot in snapshots && (configured.Some? ==> snapshot.id in configured.value) ::
        Refreshable(config, snapshot)
  }

  lemma {:induction false} RelevantMember(configured: Option<set<string>>, snapshots: seq<Snapshot>, snapshot: Snapshot)
    ensures
      snapshot in Relevant(configured, snapshots) <==> snapshot in snapshots && Wanted(configured, snapshot)
  {
    if snapshots != [] {
      var front, last := snapshots[..|snapshots| - 1], snapshots[|snapshots| - 1];
      assert snapshots == front + [last];
      RelevantMember(configured, front, snapshot);
    }
  }

  lemma {:induction false} RefreshAllOkExactly(config: Config, devices: map<string, Device>, snapshots: seq<Snapshot>,
                                               now: Instant)
    ensures
      RefreshAll(config, devices, snapshots, now).ok
      <==> forall snapshot | snapshot in snapshots :: Refreshable(config, snapshot)
  {
    if snapshots != [] {
      var front, last := snapshots[..|snapshots| - 1], snapshots[|snapshots| - 1];
      assert snapshots == front + [last];
      RefreshAllOkExactly(config, devices, front, now);
      var before := RefreshAll(config, devices, front, now);
      RefreshKeepsRest(config, KnownOrNew(before.devices, last.id), last, now);
      assert forall snapshot :: snapshot in snapshots <==> snapshot in front || snapshot == last;
      assert RefreshOne(config, before.devices, last, now).ok <==> Refreshable(config, last);
    }
  }

  lemma PollOkExactly(config: Config, s: System, a: string, answer: Answer, now: Instant)
    requires a in s.accounts
    ensures Poll(config, s, a, answer, now).ok <==> Usable(config, s.accounts[a].configured, answer)
  {
    if answer.Found? {
      var configured := s.accounts[a].configured;
      var relevant := Relevant(configured, answer.snapshots);
      RefreshAllOkExactly(config, s.state.devices, relevant, now);
      forall snapshot: Snapshot
        ensures snapshot in relevant <==> snapshot in answer.snapshots && Wanted(configured, snapshot)
      {
        RelevantMember(configured, answer.snapshots, snapshot);
      }
    }
  }

  predicate UsableAnswer(config: Config, s: System, answers: string -> Answer, a: string)
    requires a in s.accounts
  {
    Usable(config, s.accounts[a].configured, answers(a))
  }

  /** The first `i` due accounts got answers that a tick gets past. */
  predicate UsableUpTo(config: Config, s: System, due: seq<string>, answers: string -> Answer, i: nat)
    requires i <= |due| && forall a | a in due :: a in s.accounts
  {
    forall j | 0 <= j < i :: UsableAnswer(config, s, answers, due[j])
  }

  /** An account is reached exactly when every due account before it got a usable answer. */
  ghost predicate ReachedExactly(config: Config, s: System, due: seq<string>, answers: string -> Answer, r: Outcome)
    requires forall a | a in due :: a in s.accounts
  {
    && (r.ok <==> UsableUpTo(config, s, due, answers, |due|))
    && forall i | 0 <= i < |due| :: |s.log| + i < |r.s.log| <==> UsableUpTo(config, s, due, answers, i)
  }

  lemma ReachedOneMore(config: Config, s: System, front: seq<string>, a: string, answers: string -> Answer,
                       now: Instant, before: Outcome)
    requires a in s.accounts && forall b | b in front :: b in s.accounts
    requires ListedOnly(s, front, answers, now, before) && ReachedExactly(config, s, front, answers, before)
    ensures
      ReachedExactly(config, s, front + [a], answers,
                     if before.ok then Poll(config, before.s, a, answers(a), now) else before)
  {
    var due := front + [a];
    assert forall j | 0 <= j < |front| :: due[j] == front[j];
    var n := |front|;
    forall i | 0 <= i <= n
      ensures UsableUpTo(config, s, due, answers, i) <==> UsableUpTo(config, s, front, answers, i)
    {
    }
    assert due[n] == a && |due| == n + 1;
    assert UsableUpTo(config, s, due, answers, |due|)
      <==> UsableUpTo(config, s, due, answers, n) && UsableAnswer(config, s, answers, a);
    if before.ok {
      PollOkExactly(config, before.s, a, answers(a), now);
      PollTouchesOne(config, before.s, a, answers(a), now);
    }
  }

  lemma {:induction false} PollAllReaches(config: Config, s: System, due: seq<string>, answers: string -> Answer,
                                          now: Instant)
    requires forall a | a in due :: a in s.accounts
    ensures ReachedExactly(config, s, due, answers, PollAll(config, s, due, answers, now))
  {
    if due != [] {
      var front, a := due[..|due| - 1], due[|due| - 1];
      assert due == front + [a];
      PollAllReaches(config, s, front, answers, now);
      PollAllTouchesListed(config, s, front, answers, now);
      ReachedOneMore(config, s, front, a, answers, now, PollAll(config, s, front, answers, now));
    }
  }

  /** A tick polls accounts that were due when it began, each at most once and in order, and it
      reaches a due account exactly when every due account before it got a usable answer. */
  lemma TickPollsDueOnce(config: Config, s: System, now: Instant, answers: string -> Answer, storeOk: bool)
    ensures
      var due := Ascending(DueAccounts(config, s, now));
      var log := Tick(config, s, now, answers, storeOk).log;
      && StrictlyAscending(due)
      && (forall a :: a in due <==> a in s.accounts && IsDue(config, s.accounts[a], s.state.devices, now))
      && |s.log| <= |log| <= |s.log| + |due| && log[..|s.log|] == s.log
      && (forall i | |s.log| <= i < |log| ::
            log[i] == Polled(due[i - |s.log|], now, answers(due[i - |s.log|]).Failure?))
      && (forall i | 0 <= i < |due| :: |s.log| + i < |log| <==> UsableUpTo(config, s, due, answers, i))
  {
    var due := Ascending(DueAccounts(config, s, now));
    AscendingIsStrict(DueAccounts(config, s, now));
    PollAllTouchesListed(config, s, due, answers, now);
    PollAllReaches(config, s, due, answers, now);
  }

  // ---- what is saved ----

  predicate AllUsable(config: Config, s: System, now: Instant, answers: string -> Answer) {
    forall a | a in DueAccounts(config, s, now) :: UsableAnswer(config, s, answers, a)
  }

  /** The operation gets to its end: it knows its account or device, every answer is usable, and
      the event sink and the store accept what it hands them. Registering ends without saving. */
  predicate Completes(config: Config, s: System, op: Operation) {
    match op
    case Registering(_, _) => false
    case Ticking(now, answers, storeOk) => AllUsable(config, s, now, answers) && storeOk
    case Locating(a, _, io) => a in s.accounts && Ending(io).Ok?
    case Pause(device, io) => KnownDevice(s.state.devices, device) && Ending(io).Ok?
    case Resume(device, _, io) => KnownDevice(s.state.devices, device) && Ending(io).Ok?
    case Schedule(device, _, io) => device in s.state.devices && Ending(io).Ok?
    case ExternalUpdate(snapshot, zoneExit, _, io, now) =>
      && Refreshable(config, snapshot) && io.storeOk
      && (CompanionsLater(s.state.devices, snapshot.id, zoneExit, now) ==> io.sinkOk)
  }

  /** A device that leaves a zone has a companion that is not paused and due later than in two
      minutes, so that its new deadline has to be announced. */
  predicate CompanionsLater(devices: map<string, Device>, source: string, zoneExit: bool, now: Instant) {
    zoneExit
    && exists d | d in devices ::
         && d != source && source in devices && devices[source].nearbyGroup.Some?
         && devices[d].nearbyGroup == devices[source].nearbyGroup
         && !devices[d].paused
         && (devices[d].nextUpdateAt.Some? ==> devices[d].nextUpdateAt.value > now + Seconds(120))
  }

  lemma {:induction false} PollsSaveNothing(config: Config, s: System, due: seq<string>, answers: string -> Answer,
                                            now: Instant)
    requires forall a | a in due :: a in s.accounts
    ensures PollAll(config, s, due, answers, now).s.saved == s.saved
  {
    if due != [] {
      PollsSaveNothing(config, s, due[..|due| - 1], answers, now);
    }
  }

  lemma TickCompletesExactly(config: Config, s: System, now: Instant, answers: string -> Answer)
    ensures
      PollAll(config, s, Ascending(DueAccounts(config, s, now)), answers, now).ok
      <==> AllUsable(config, s, now, answers)
  {
    var due := Ascending(DueAccounts(config, s, now));
    PollAllReaches(config, s, due, answers, now);
    if UsableUpTo(config, s, due, answers, |due|) {
      forall a | a in DueAccounts(config, s, now) ensures UsableAnswer(config, s, answers, a) {
        assert a in due;
      }
    }
  }

  lemma ExternalCompletesExactly(config: Config, devices: map<string, Device>, snapshot: Snapshot, zoneExit: bool,
                                 groups: map<string, nat>, sinkOk: bool, now: Instant)
    ensures
      ExternalRefresh(config, devices, snapshot, zoneExit, groups, sinkOk, now).ok
      <==> Refreshable(config, snapshot) && (CompanionsLater(devices, snapshot.id, zoneExit, now) ==> sinkOk)
  {
    RefreshKeepsRest(config, KnownOrNew(devices, snapshot.id), snapshot, now);
    var refresh := RefreshOne(config, devices, snapshot, now);
    var companions := Companions(devices, snapshot.id, zoneExit);
    var at: Instant := now + Seconds(EXIT_DELAY_SECONDS);
    var regrouped := Regrouped(refresh.devices, groups);
    forall d | d in companions ensures d in regrouped && Later(regrouped[d], at) == Later(devices[d], at) {
      assert d in devices && d != snapshot.id;
      assert refresh.devices[d] == devices[d];
    }
    assert AnyLater(devices, companions, at) <==> CompanionsLater(devices, snapshot.id, zoneExit, now);
  }

  /** The store holds the state after the last operation that got to its end. */
  lemma SavesExactly(config: Config, s: System, op: Operation)
    ensures
      var after := Step(config, s, op);
      after.saved == if Completes(config, s, op) then after.state else s.saved
  {
    match op
    case Ticking(now, answers, storeOk) =>
      PollsSaveNothing(config, s, Ascending(DueAccounts(config, s, now)), answers, now);
      TickCompletesExactly(config, s, now, answers);
    case ExternalUpdate(snapshot, zoneExit, groups, io, now) =>
      ExternalCompletesExactly(config, s.state.devices, snapshot, zoneExit, groups, io.sinkOk, now);
    case _ =>
  }

  // ---- an answer that stops the tick ----

  /** The account is due, and no account before it is. */
  predicate FirstDue(config: Config, s: System, now: Instant, a: string) {
    a in DueAccounts(config, s, now) && forall b | b in DueAccounts(config, s, now) :: StringLe(a, b)
  }

  lemma FirstIsPolledFirst(config: Config, s: System, now: Instant, a: string)
    requires FirstDue(config, s, now, a)
    ensures Ascending(DueAccounts(config, s, now)) != [] && Ascending(DueAccounts(config, s, now))[0] == a
  {
    var due := Ascending(DueAccounts(config, s, now));
    AscendingIsStrict(DueAccounts(config, s, now));
    assert a in due && due[0] in DueAccounts(config, s, now);
    var k :| 0 <= k < |due| && due[k] == a;
    if k > 0 {
      StringLeAntisymmetric(due[0], a);
    }
  }

  lemma PollOne(config: Config, s: System, a: string, answers: string -> Answer, now: Instant)
    requires a in s.accounts
    ensures PollAll(config, s, [a], answers, now) == Poll(config, s, a, answers(a), now)
  {
    assert [a][..0] == [];
  }

  /** When the first due account gets an answer it cannot use, no other account is polled, no
      account changes, not even in its error count, and nothing is saved. */
  lemma UnusableAnswerStopsTick(config: Config, s: System, now: Instant, answers: string -> Answer, storeOk: bool,
                                a: string)
    requires FirstDue(config, s, now, a) && answers(a).Found? && !UsableAnswer(config, s, answers, a)
    ensures
      var after := Tick(config, s, now, answers, storeOk);
      && after.accounts == s.accounts && after.state.entries == s.state.entries && after.saved == s.saved
      && after.log == s.log + [Polled(a, now, false)]
      && after.state.devices
         == RefreshAll(config, s.state.devices, Relevant(s.accounts[a].configured, answers(a).snapshots), now).devices
  {
    var due := Ascending(DueAccounts(config, s, now));
    FirstIsPolledFirst(config, s, now, a);
    assert due[..1] == [a];
    PollOne(config, s, a, answers, now);
    PollOkExactly(config, s, a, answers(a), now);
    PollsStop(config, s, due, answers, now, 1);
  }

  // ---- a device that stops every tick ----

  /** The refresh of the snapshots stops at the `j`th, which is the first for the device. */
  predicate StopsAt(config: Config, snapshots: seq<Snapshot>, j: nat, d: string)
    requires j < |snapshots|
  {
    && snapshots[j].id == d && !Decidable(config, snapshots[j])
    && forall i | 0 <= i < j :: Refreshable(config, snapshots[i]) && snapshots[i].id != d
  }

  lemma {:induction false} RefreshesElsewhere(config: Config, devices: map<string, Device>, snapshots: seq<Snapshot>,
                                              now: Instant, d: string)
    requires d in devices && forall i | 0 <= i < |snapshots| :: snapshots[i].id != d
    ensures
      var after := RefreshAll(config, devices, snapshots, now).devices;
      d in after && after[d] == devices[d]
  {
    if snapshots != [] {
      RefreshesElsewhere(config, devices, snapshots[..|snapshots| - 1], now, d);
    }
  }

  /** Nothing changes when the device is due next. */
  ghost predicate SameDue(before: map<string, Device>, after: map<string, Device>, d: string) {
    && d in before && d in after
    && after[d].paused == before[d].paused && after[d].nextUpdateAt == before[d].nextUpdateAt
  }

  lemma StoppedDeviceKept(config: Config, devices: map<string, Device>, snapshots: seq<Snapshot>, now: Instant, j: nat,
                          d: string)
    requires j < |snapshots| && StopsAt(config, snapshots, j, d) && d in devices
    ensures
      var refresh := RefreshAll(config, devices, snapshots, now);
      !refresh.ok && SameDue(devices, refresh.devices, d)
  {
    var front, m := snapshots[..j], j + 1;
    RefreshesElsewhere(config, devices, front, now, d);
    RefreshAllOkExactly(config, devices, front, now);
    var before := RefreshAll(config, devices, front, now);
    assert before.ok;
    assert snapshots[..m][..j] == front;
    assert RefreshAll(config, devices, snapshots[..m], now) == RefreshOne(config, before.devices, snapshots[j], now);
    RefreshKeepsRest(config, before.devices[d], snapshots[j], now);
    RefreshesStop(config, devices, snapshots, now, m);
  }

  /** What stops an account that is not in error at every tick: its devices are still unknown, or
      one of them is due, and its answer cannot be used, because of that device in particular. */
  ghost predicate Stuck(config: Config, s: System, op: Operation, a: string, blocker: Option<string>)
    requires a in s.accounts
  {
    var account := s.accounts[a];
    && op.Ticking? && op.answers(a).Found? && account.errorCount == 0
    && match blocker
       case None =>
         && account.deviceIds == {} && account.nextDiscoveryAt <= op.now + config.prefetch
         && !UsableAnswer(config, s, op.answers, a)
       case Some(d) =>
         var relevant := Relevant(account.configured, op.answers(a).snapshots);
         && d in account.deviceIds && d in s.state.devices && DeviceDue(s.state.devices[d], op.now + config.prefetch)
         && exists j :: 0 <= j < |relevant| && StopsAt(config, relevant, j, d)
  }

  lemma StuckIsUnusable(config: Config, s: System, op: Operation, a: string, blocker: Option<string>)
    requires a in s.accounts && Stuck(config, s, op, a, blocker)
    ensures a in DueAccounts(config, s, op.now) && !UsableAnswer(config, s, op.answers, a)
  {
    if blocker.Some? {
      var relevant := Relevant(s.accounts[a].configured, op.answers(a).snapshots);
      var j :| 0 <= j < |relevant| && StopsAt(config, relevant, j, blocker.value);
      RelevantMember(s.accounts[a].configured, op.answers(a).snapshots, relevant[j]);
      assert !Refreshable(config, relevant[j]);
    }
  }

  /** Nothing was polled but the account, `n` times, nothing was saved, and the device that
      stops it is due when it was. */
  ghost predicate OnlyPolled(s: System, after: System, a: string, n: nat, blocker: Option<string>) {
    && after.accounts == s.accounts && after.saved == s.saved
    && s.log <= after.log && |after.log| == |s.log| + n
    && (forall i | |s.log| <= i < |after.log| :: after.log[i].Polled? && after.log[i].account == a)
    && (blocker.Some? ==> SameDue(s.state.devices, after.state.devices, blocker.value))
  }

  lemma StillStuck(config: Config, s: System, after: System, op: Operation, a: string, n: nat, blocker: Option<string>)
    requires a in s.accounts && Stuck(config, s, op, a, blocker) && OnlyPolled(s, after, a, n, blocker)
    ensures Stuck(config, after, op, a, blocker)
  {
  }

  lemma StuckTick(config: Config, before: System, op: Operation, a: string, blocker: Option<string>)
    requires a in before.accounts && Stuck(config, before, op, a, blocker)
    requires forall b | b in DueAccounts(config, before, op.now) :: StringLe(a, b)
    ensures OnlyPolled(before, Step(config, before, op), a, 1, blocker)
  {
    StuckIsUnusable(config, before, op, a, blocker);
    UnusableAnswerStopsTick(config, before, op.now, op.answers, op.storeOk, a);
    if blocker.Some? {
      var relevant := Relevant(before.accounts[a].configured, op.answers(a).snapshots);
      var j :| 0 <= j < |relevant| && StopsAt(config, relevant, j, blocker.value);
      StoppedDeviceKept(config, before.state.devices, relevant, op.now, j, blocker.value);
    }
  }

  /** No account before this one is due when the operation ticks. */
  predicate ComesFirst(config: Config, s: System, op: Operation, a: string) {
    op.Ticking? && forall b | b in DueAccounts(config, s, op.now) :: StringLe(a, b)
  }

  /** No tick gets past an account that is stuck while no account before it is due: the accounts
      after it are never polled and nothing is ever saved. */
  lemma {:induction false} EveryTickStops(config: Config, s: System, run: seq<Operation>, m: nat, a: string,
                                          blocker: Option<string>)
    requires m <= |run| && a in s.accounts && (blocker.Some? ==> blocker.value in s.state.devices)
    requires forall k | 0 <= k < m :: Stuck(config, s, run[k], a, blocker)
    requires forall k | 0 <= k < m :: FirstAt(config, s, run, k, a)
    ensures OnlyPolled(s, After(config, s, run, m), a, m, blocker)
  {
    if m > 0 {
      var n := m - 1;
      EveryTickStops(config, s, run, n, a, blocker);
      assert FirstAt(config, s, run, n, a);
      StopsAgain(config, s, After(config, s, run, n), run[n], a, n, blocker);
    }
  }

  lemma StopsAgain(config: Config, s: System, before: System, op: Operation, a: string, n: nat, blocker: Option<string>)
    requires a in s.accounts && Stuck(config, s, op, a, blocker) && OnlyPolled(s, before, a, n, blocker)
    requires ComesFirst(config, before, op, a)
    ensures OnlyPolled(s, Step(config, before, op), a, n + 1, blocker)
  {
    StillStuck(config, s, before, op, a, n, blocker);
    StuckTick(config, before, op, a, blocker);
  }

  lemma FirstAgain(config: Config, s: System, before: System, op: Operation, a: string, n: nat, blocker: Option<string>)
    requires OnlyPolled(s, before, a, n, blocker) && op.Ticking? && forall b | b in s.accounts :: StringLe(a, b)
    ensures ComesFirst(config, before, op, a)
  {
  }

  ghost predicate FirstAt(config: Config, s: System, run: seq<Operation>, k: nat, a: string)
    requires k < |run|
  {
    ComesFirst(config, After(config, s, run, k), run[k], a)
  }

  /** The first account of all always comes first. */
  lemma {:induction false} FirstStaysFirst(config: Config, s: System, run: seq<Operation>, m: nat, a: string,
                                           blocker: Option<string>)
    requires m <= |run| && a in s.accounts && (blocker.Some? ==> blocker.value in s.state.devices)
    requires forall b | b in s.accounts :: StringLe(a, b)
    requires forall k | 0 <= k < m :: Stuck(config, s, run[k], a, blocker)
    ensures forall k | 0 <= k < m :: FirstAt(config, s, run, k, a)
  {
    if m > 0 {
      var n := m - 1;
      FirstStaysFirst(config, s, run, n, a, blocker);
      EveryTickStops(config, s, run, n, a, blocker);
      assert Stuck(config, s, run[n], a, blocker);
      FirstAgain(config, s, After(config, s, run, n), run[n], a, n, blocker);
    }
  }
}
