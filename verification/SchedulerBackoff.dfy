// The backoff of failing accounts over every run of the scheduler, and when an account that
// failed or was located is due again.
module SchedulerBackoff {
  import opened Core
  import opened Order
  import opened Scheduler
  import Interval

  datatype Operation =
    | Registering(account: string, configured: set<string>)
    | Ticking(now: Instant, answers: string -> Answer, storeOk: bool)
    | Locating(account: string, now: Instant, io: Io)
    | Pause(device: Option<string>, io: Io)
    | Resume(device: Option<string>, now: Instant, io: Io)
    | Schedule(deviceId: string, at: Instant, io: Io)
    | ExternalUpdate(snapshot: Snapshot, zoneExit: bool, groups: map<string, nat>, io: Io, now: Instant)

  function Step(config: Config, s: System, op: Operation): System {
    match op
    case Registering(a, configured) => Register(s, a, configured)
    case Ticking(now, answers, storeOk) => Tick(config, s, now, answers, storeOk)
    case Locating(a, now, io) => LocateNow(s, a, now, io)
    case Pause(device, io) => Amend(s, device, Pausing(), io)
    case Resume(device, now, io) => Amend(s, device, Resuming(now), io)
    case Schedule(device, at, io) => Amend(s, Some(device), Scheduling(at), io)
    case ExternalUpdate(snapshot, zoneExit, groups, io, now) =>
      External(config, s, snapshot, zoneExit, groups, io, now)
  }

  function After(config: Config, start: System, run: seq<Operation>, m: nat): System
    requires m <= |run|
  {
    if m == 0 then start else Step(config, After(config, start, run, m - 1), run[m - 1])
  }

  // ---- the durable mirror ----

  predicate MirrorOf(entry: Entry, account: Account) {
    && entry.deviceIds == account.deviceIds
    && entry.errorCount == account.errorCount
    && entry.nextDiscoveryAt.GetOr(MIN_UTC) == account.nextDiscoveryAt
    && (account.configured.Some? ==> account.configured == Some(account.deviceIds) && account.deviceIds != {})
  }

  /** Every account in memory has its image in the durable state. */
  ghost predicate Mirrored(s: System) {
    forall a | a in s.accounts :: a in s.state.entries && MirrorOf(s.state.entries[a], s.accounts[a])
  }

  lemma RegisterMirrored(s: System, account: string, configured: set<string>)
    requires Mirrored(s)
    ensures Mirrored(Register(s, account, configured))
  {
  }

  lemma PollMirrored(config: Config, s: System, a: string, answer: Answer, now: Instant)
    requires Mirrored(s) && a in s.accounts
    ensures Mirrored(Poll(config, s, a, answer, now).s)
  {
  }

  lemma {:induction false} PollAllMirrored(config: Config, s: System, due: seq<string>, answers: string -> Answer,
                                           now: Instant)
    requires Mirrored(s) && forall a | a in due :: a in s.accounts
    ensures Mirrored(PollAll(config, s, due, answers, now).s)
  {
    if due != [] {
      var front, a := due[..|due| - 1], due[|due| - 1];
      PollAllMirrored(config, s, front, answers, now);
      var before := PollAll(config, s, front, answers, now);
      if before.ok {
        PollMirrored(config, before.s, a, answers(a), now);
      }
    }
  }

  // ---- one tick ----

  /** A poll leaves the other accounts, and their entries, alone. */
  lemma PollTouchesOne(config: Config, s: System, a: string, answer: Answer, now: Instant)
    requires a in s.accounts
    ensures
      var after := Poll(config, s, a, answer, now).s;
      && after.accounts.Keys == s.accounts.Keys
      && (forall b | b in s.accounts && b != a :: after.accounts[b] == s.accounts[b])
      && after.accounts[a].configured == s.accounts[a].configured
      && after.log == s.log + [Polled(a, now, answer.Failure?)]
      && forall b | b != a :: PersistedEntry(after.state, b) == PersistedEntry(s.state, b)
  {
  }

  /** What polling the listed accounts leaves of the rest: the others untouched, and one note
      for each account polled, in order. */
  ghost predicate ListedOnly(s: System, due: seq<string>, answers: string -> Answer, now: Instant, r: Outcome) {
    && r.s.accounts.Keys == s.accounts.Keys
    && (forall b | b in s.accounts && b !in due :: r.s.accounts[b] == s.accounts[b])
    && (forall b | b !in due :: PersistedEntry(r.s.state, b) == PersistedEntry(s.state, b))
    && (forall b | b in s.accounts :: r.s.accounts[b].configured == s.accounts[b].configured)
    && |s.log| <= |r.s.log| <= |s.log| + |due|
    && r.s.log[..|s.log|] == s.log
    && (forall i | |s.log| <= i < |r.s.log| ::
          r.s.log[i] == Polled(due[i - |s.log|], now, answers(due[i - |s.log|]).Failure?))
    && (r.ok ==> |r.s.log| == |s.log| + |due|)
  }

  lemma ListedOneMore(config: Config, s: System, front: seq<string>, a: string, answers: string -> Answer,
                      now: Instant, before: Outcome)
    requires a in s.accounts && ListedOnly(s, front, answers, now, before)
    ensures ListedOnly(s, front + [a], answers, now,
                       if before.ok then Poll(config, before.s, a, answers(a), now) else before)
  {
    if before.ok {
      PollTouchesOne(config, before.s, a, answers(a), now);
    }
  }

  lemma {:induction false} PollAllTouchesListed(config: Config, s: System, due: seq<string>,
                                                answers: string -> Answer, now: Instant)
    requires forall a | a in due :: a in s.accounts
    ensures ListedOnly(s, due, answers, now, PollAll(config, s, due, answers, now))
  {
    if due != [] {
      var front, a := due[..|due| - 1], due[|due| - 1];
      assert due == front + [a];
      PollAllTouchesListed(config, s, front, answers, now);
      ListedOneMore(config, s, front, a, answers, now, PollAll(config, s, front, answers, now));
    }
  }

  // ---- backoff ----

  /** Failed polls of an account since its last successful one. */
  function Streak(log: seq<Note>, a: string): nat {
    if log == [] then 0
    else
      var front, last := log[..|log| - 1], log[|log| - 1];
      if last.Polled? && last.account == a then if last.failed then Streak(front, a) + 1 else 0
      else Streak(front, a)
  }

  /** The time before which the account's last failure forbids polling it, unless it was
      located on request since. */
  function Waiting(log: seq<Note>, a: string): Option<int> {
    if log == [] then None
    else
      var front, last := log[..|log| - 1], log[|log| - 1];
      if last.account != a then Waiting(front, a)
      else if last.Polled? && last.failed then Some(last.at + Seconds(Interval.RetrySeconds(Streak(log, a))))
      else None
  }

  predicate MayPoll(log: seq<Note>, a: string, at: int) {
    Waiting(log, a).Some? ==> Waiting(log, a).value <= at
  }

  /** Every poll in the log waited out the retry interval of the failures before it. */
  ghost predicate RespectsBackoff(log: seq<Note>) {
    forall i | 0 <= i < |log| && log[i].Polled? :: MayPoll(log[..i], log[i].account, log[i].at)
  }

  lemma LogExtended(log: seq<Note>, note: Note)
    requires RespectsBackoff(log) && (note.Polled? ==> MayPoll(log, note.account, note.at))
    ensures RespectsBackoff(log + [note])
  {
    var longer := log + [note];
    forall i | 0 <= i < |longer| && longer[i].Polled? ensures MayPoll(longer[..i], longer[i].account, longer[i].at) {
      if i < |log| {
        assert longer[..i] == log[..i];
      } else {
        assert longer[..i] == log;
      }
    }
  }

  lemma NoteEffect(log: seq<Note>, note: Note, a: string)
    ensures
      var longer := log + [note];
      && Streak(longer, a) == (if note.Polled? && note.account == a then (if note.failed then Streak(log, a) + 1 else 0)
                               else Streak(log, a))
      && Waiting(longer, a) == (if note.account != a then Waiting(log, a)
                                else if note.Polled? && note.failed then
                                  Some(note.at + Seconds(Interval.RetrySeconds(Streak(log, a) + 1)))
                                else None)
  {
    assert (log + [note])[..|log|] == log;
  }

  /** The durable entry of an account remembers its failures and its wait. */
  predicate HeldBack(entry: Entry, log: seq<Note>, a: string) {
    && entry.errorCount >= Min(Streak(log, a), U32_MAX)
    && (Waiting(log, a).Some? ==>
          entry.errorCount > 0 && entry.nextDiscoveryAt.Some?
            && entry.nextDiscoveryAt.value >= Waiting(log, a).value > MIN_UTC)
  }

  ghost predicate AllHeldBack(state: Durable, log: seq<Note>) {
    forall a: string :: HeldBack(PersistedEntry(state, a), log, a)
  }

  ghost predicate BackoffHolds(s: System) {
    Mirrored(s) && RespectsBackoff(s.log) && AllHeldBack(s.state, s.log)
  }

  lemma RetryCovers(errorCount: nat, streak: nat)
    requires errorCount >= Min(streak, U32_MAX)
    ensures Interval.RetrySeconds(IncrementU32(errorCount)) >= Interval.RetrySeconds(streak + 1)
    ensures IncrementU32(errorCount) >= Min(streak + 1, U32_MAX) && IncrementU32(errorCount) > 0
  {
  }

  lemma PollKeepsBackoff(config: Config, s: System, a: string, answer: Answer, now: Instant)
    requires BackoffHolds(s) && a in s.accounts
    requires s.accounts[a].errorCount > 0 ==> s.accounts[a].nextDiscoveryAt <= now
    ensures BackoffHolds(Poll(config, s, a, answer, now).s)
  {
    var after := Poll(config, s, a, answer, now).s;
    var note := Polled(a, now, answer.Failure?);
    PollMirrored(config, s, a, answer, now);
    PollTouchesOne(config, s, a, answer, now);
    assert MirrorOf(s.state.entries[a], s.accounts[a]) && HeldBack(PersistedEntry(s.state, a), s.log, a);
    LogExtended(s.log, note);
    forall b: string ensures HeldBack(PersistedEntry(after.state, b), after.log, b) {
      NoteEffect(s.log, note, b);
      assert HeldBack(PersistedEntry(s.state, b), s.log, b);
      if b == a {
        RetryCovers(s.accounts[a].errorCount, Streak(s.log, a));
      }
    }
  }

  lemma {:induction false} PollAllKeepsBackoff(config: Config, s: System, due: seq<string>, answers: string -> Answer,
                                               now: Instant)
    requires BackoffHolds(s) && forall a | a in due :: a in s.accounts
    requires forall a | a in due :: s.accounts[a].errorCount > 0 ==> s.accounts[a].nextDiscoveryAt <= now
    requires StrictlyAscending(due)
    ensures BackoffHolds(PollAll(config, s, due, answers, now).s)
  {
    if due != [] {
      var front, a := due[..|due| - 1], due[|due| - 1];
      PollAllKeepsBackoff(config, s, front, answers, now);
      var before := PollAll(config, s, front, answers, now);
      if before.ok {
        PollAllTouchesListed(config, s, front, answers, now);
        assert a !in front;
        PollKeepsBackoff(config, before.s, a, answers(a), now);
      }
    }
  }

  lemma RegisterKeepsBackoff(s: System, a: string, configured: set<string>)
    requires BackoffHolds(s)
    ensures BackoffHolds(Register(s, a, configured))
  {
    RegisterMirrored(s, a, configured);
    var after := Register(s, a, configured);
    forall b: string ensures HeldBack(PersistedEntry(after.state, b), after.log, b) {
      assert HeldBack(PersistedEntry(s.state, b), s.log, b);
    }
  }

  lemma LocateKeepsBackoff(s: System, a: string, now: Instant, io: Io)
    requires BackoffHolds(s)
    ensures BackoffHolds(LocateNow(s, a, now, io))
  {
    if a in s.accounts {
      var after := LocateNow(s, a, now, io);
      LogExtended(s.log, Located(a, now));
      forall b: string ensures HeldBack(PersistedEntry(after.state, b), after.log, b) {
        NoteEffect(s.log, Located(a, now), b);
        assert HeldBack(PersistedEntry(s.state, b), s.log, b);
      }
    }
  }

  lemma TickKeepsBackoff(config: Config, s: System, now: Instant, answers: string -> Answer, storeOk: bool)
    requires BackoffHolds(s)
    ensures BackoffHolds(Tick(config, s, now, answers, storeOk))
  {
    var due := Ascending(DueAccounts(config, s, now));
    AscendingIsStrict(DueAccounts(config, s, now));
    PollAllKeepsBackoff(config, s, due, answers, now);
    SameButSaved(PollAll(config, s, due, answers, now).s, Tick(config, s, now, answers, storeOk));
  }

  lemma SameButSaved(s: System, s': System)
    requires BackoffHolds(s) && s'.accounts == s.accounts && s'.state.entries == s.state.entries && s'.log == s.log
    ensures BackoffHolds(s')
  {
    forall a: string ensures HeldBack(PersistedEntry(s'.state, a), s'.log, a) {
      assert HeldBack(PersistedEntry(s.state, a), s.log, a);
    }
  }

  lemma AmendKeepsBackoff(s: System, device: Option<string>, f: Device -> Device, io: Io)
    requires BackoffHolds(s)
    ensures BackoffHolds(Amend(s, device, f, io))
  {
    SameButSaved(s, Amend(s, device, f, io));
  }

  lemma ExternalKeepsBackoff(config: Config, s: System, snapshot: Snapshot, zoneExit: bool, groups: map<string, nat>,
                             io: Io, now: Instant)
    requires BackoffHolds(s)
    ensures BackoffHolds(External(config, s, snapshot, zoneExit, groups, io, now))
  {
    SameButSaved(s, External(config, s, snapshot, zoneExit, groups, io, now));
  }

  lemma StepKeepsBackoff(config: Config, s: System, op: Operation)
    requires BackoffHolds(s)
    ensures BackoffHolds(Step(config, s, op))
  {
    match op
    case Registering(a, configured) => RegisterKeepsBackoff(s, a, configured);
    case Ticking(now, answers, storeOk) => TickKeepsBackoff(config, s, now, answers, storeOk);
    case Locating(a, now, io) => LocateKeepsBackoff(s, a, now, io);
    case Pause(device, io) => AmendKeepsBackoff(s, device, Pausing(), io);
    case Resume(device, now, io) => AmendKeepsBackoff(s, device, Resuming(now), io);
    case Schedule(device, at, io) => AmendKeepsBackoff(s, Some(device), Scheduling(at), io);
    case ExternalUpdate(snapshot, zoneExit, groups, io, now) =>
      ExternalKeepsBackoff(config, s, snapshot, zoneExit, groups, io, now);
  }

  lemma BackoffKept(config: Config, start: System, run: seq<Operation>, n: nat)
    requires n < |run| && BackoffHolds(After(config, start, run, n))
    ensures BackoffHolds(After(config, start, run, n + 1))
  {
    StepKeepsBackoff(config, After(config, start, run, n), run[n]);
  }

  lemma LoadedHoldsBack(state: Durable)
    ensures BackoffHolds(Loaded(state))
  {
    forall a: string ensures HeldBack(PersistedEntry(state, a), [], a) {
    }
  }

  /** In every run, from whatever state was loaded, no account is polled before the retry
      interval of its consecutive failures has passed, unless it was located on request. */
  lemma {:induction false} EveryPollWaitsItsTurn(config: Config, state: Durable, run: seq<Operation>, m: nat)
    requires m <= |run|
    ensures BackoffHolds(After(config, Loaded(state), run, m))
  {
    if m == 0 {
      LoadedHoldsBack(state);
    } else {
      var n := m - 1;
      EveryPollWaitsItsTurn(config, state, run, n);
      BackoffKept(config, Loaded(state), run, n);
    }
  }

  // ---- when an account is due again ----

  /** A failing account, and each of its known devices, is next due after the retry interval of its
      failures in a row, which all of them count; its entry says the same. Its device list,
      whether they are paused, their tracks and groups stay as they were. */
  lemma FailureSchedulesRetry(config: Config, s: System, a: string, now: Instant, t: Instant)
    requires a in s.accounts
    ensures
      var after := FailPoll(s, a, now);
      var (before, failures) := (s.accounts[a], Min(s.accounts[a].errorCount + 1, U32_MAX));
      var retry: Instant := now + Seconds(Interval.RetrySeconds(failures));
      && (IsDue(config, after.accounts[a], after.state.devices, t) <==> t >= retry)
      && after.accounts[a] == Account(before.configured, before.deviceIds, retry, failures)
      && after.state.entries == s.state.entries[a := Entry(before.deviceIds, failures, Some(retry))]
      && forall d | d in before.deviceIds && d in s.state.devices ::
           var device := s.state.devices[d];
           after.state.devices[d]
           == Device(Some(retry), device.paused, failures, device.tracks, device.nearbyGroup)
  {
  }

  /** After an explicit request an account is due at once, exactly when it is in error, or has
      no devices yet, or has a device that is not paused. */
  lemma LocateMakesDueExactly(config: Config, s: System, a: string, now: Instant, io: Io)
    requires a in s.accounts
    ensures
      var after := LocateNow(s, a, now, io);
      IsDue(config, after.accounts[a], after.state.devices, now)
      <==> s.accounts[a].errorCount > 0 || s.accounts[a].deviceIds == {}
           || exists d :: d in s.accounts[a].deviceIds && d in s.state.devices && !s.state.devices[d].paused
  {
    var after := LocateNow(s, a, now, io);
    forall d | d in s.accounts[a].deviceIds && d in s.state.devices
      ensures d in after.state.devices && after.state.devices[d] == Scheduling(now)(s.state.devices[d])
    {
    }
  }
}
