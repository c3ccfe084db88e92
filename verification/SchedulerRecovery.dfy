// The backoff across restarts. A restart forgets the accounts and everything that was not
// saved; a wait survives it exactly when the saved state still knows of it.
module SchedulerRecovery {
  import opened Core
  import opened Order
  import opened Scheduler
  import opened SchedulerBackoff
  import opened SchedulerIsolation
  import Interval

  /** What happens to a scheduler over the lives of its process. */
  datatype Happening = Operated(op: Operation) | Interrupted

  /** A new process loads what the old one saved. The log is kept, to speak of both lives. */
  function Reopened(s: System): System {
    System(map[], s.saved, s.saved, s.log)
  }

  function Live(config: Config, s: System, h: Happening): System {
    match h
    case Operated(op) => Step(config, s, op)
    case Interrupted => Reopened(s)
  }

  function Lived(config: Config, start: System, life: seq<Happening>, m: nat): System
    requires m <= |life|
  {
    if m == 0 then start else Live(config, Lived(config, start, life, m - 1), life[m - 1])
  }

  // ---- what a tick writes to the log ----

  lemma {:induction false} SilentNotes(log: seq<Note>, notes: seq<Note>, a: string)
    requires forall i | 0 <= i < |notes| :: notes[i].account != a
    ensures Streak(log + notes, a) == Streak(log, a) && Waiting(log + notes, a) == Waiting(log, a)
  {
    if notes == [] {
      assert log + notes == log;
    } else {
      var front, last := notes[..|notes| - 1], notes[|notes| - 1];
      assert notes == front + [last];
      SilentNotes(log, front, a);
      NoteEffect(log + front, last, a);
      assert log + notes == log + front + [last];
    }
  }

  /** What the log says about an account once the account was polled. */
  predicate Told(log: seq<Note>, longer: seq<Note>, note: Note)
    requires note.Polled?
  {
    if note.failed then
      Waiting(longer, note.account)
      == Some(note.at + Seconds(Interval.RetrySeconds(Streak(log, note.account) + 1)))
    else
      Waiting(longer, note.account) == None && Streak(longer, note.account) == 0
  }

  lemma ToldByLast(log: seq<Note>, before: seq<Note>, note: Note)
    requires note.Polled? && forall i | 0 <= i < |before| :: before[i].account != note.account
    ensures Told(log, log + before + [note], note)
  {
    SilentNotes(log, before, note.account);
    NoteEffect(log + before, note, note.account);
  }

  lemma StillTold(log: seq<Note>, longer: seq<Note>, note: Note, notes: seq<Note>)
    requires note.Polled? && Told(log, longer, note)
    requires forall i | 0 <= i < |notes| :: notes[i].account != note.account
    ensures Told(log, longer + notes, note)
  {
    SilentNotes(longer, notes, note.account);
  }

  /** Only one of the notes is about its account. */
  lemma OneNote(log: seq<Note>, notes: seq<Note>, i: nat)
    requires i < |notes| && notes[i].Polled?
    requires forall j | 0 <= j < |notes| && j != i :: notes[j].account != notes[i].account
    ensures Told(log, log + notes, notes[i])
  {
    var before, after := notes[..i], notes[i + 1..];
    ToldByLast(log, before, notes[i]);
    StillTold(log, log + before + [notes[i]], notes[i], after);
    assert log + notes == log + before + [notes[i]] + after;
  }

  /** The notes of a tick, in the order of the due accounts it reached. */
  ghost predicate TickNotes(config: Config, s: System, now: Instant, answers: string -> Answer, notes: seq<Note>) {
    var due := Ascending(DueAccounts(config, s, now));
    && StrictlyAscending(due) && |notes| <= |due|
    && (forall i | 0 <= i < |notes| :: notes[i] == Polled(due[i], now, answers(due[i]).Failure?))
    && (forall i | 0 <= i < |due| :: i < |notes| <==> UsableUpTo(config, s, due, answers, i))
  }

  lemma NotesOfTick(config: Config, s: System, now: Instant, answers: string -> Answer, storeOk: bool)
    returns (notes: seq<Note>)
    ensures
      Tick(config, s, now, answers, storeOk).log == s.log + notes && TickNotes(config, s, now, answers, notes)
  {
    TickPollsDueOnce(config, s, now, answers, storeOk);
    var log := Tick(config, s, now, answers, storeOk).log;
    notes := log[|s.log|..];
  }

  // ---- when a tick may be followed by a restart ----

  /** Some account that the tick reaches answers with a failure. */
  ghost predicate ReachesFailure(config: Config, s: System, now: Instant, answers: string -> Answer) {
    var due := Ascending(DueAccounts(config, s, now));
    exists i | 0 <= i < |due| :: UsableUpTo(config, s, due, answers, i) && answers(due[i]).Failure?
  }

  /** The saved entry of a due account, if it is in error, was due by now. */
  ghost predicate SavedDatesPast(config: Config, s: System, now: Instant) {
    forall a | a in DueAccounts(config, s, now) ::
      var entry := PersistedEntry(s.saved, a);
      entry.errorCount > 0 && entry.nextDiscoveryAt.Some? ==> entry.nextDiscoveryAt.value <= now
  }

  /** The backoff holds, and would hold after a restart. */
  ghost predicate Safe(s: System) {
    BackoffHolds(s) && BackoffHolds(Reopened(s))
  }

  lemma SafeMeansSaved(s: System)
    requires BackoffHolds(s)
    ensures Safe(s) <==> AllHeldBack(s.saved, s.log)
  {
  }

  lemma SavedEntriesSuffice(s: System)
    requires BackoffHolds(s) && s.saved.entries == s.state.entries
    ensures Safe(s)
  {
    forall a: string ensures HeldBack(PersistedEntry(s.saved, a), s.log, a) {
      assert HeldBack(PersistedEntry(s.state, a), s.log, a);
    }
  }

  lemma NoFailureKeeps(config: Config, s: System, now: Instant, answers: string -> Answer, notes: seq<Note>, a: string)
    requires TickNotes(config, s, now, answers, notes) && !ReachesFailure(config, s, now, answers)
    requires HeldBack(PersistedEntry(s.saved, a), s.log, a)
    ensures HeldBack(PersistedEntry(s.saved, a), s.log + notes, a)
  {
    if i :| 0 <= i < |notes| && notes[i].account == a {
      var due := Ascending(DueAccounts(config, s, now));
      assert UsableUpTo(config, s, due, answers, i);
      OneNote(s.log, notes, i);
    } else {
      SilentNotes(s.log, notes, a);
    }
  }

  lemma FailureLoses(config: Config, s: System, now: Instant, answers: string -> Answer, notes: seq<Note>)
    requires TickNotes(config, s, now, answers, notes) && ReachesFailure(config, s, now, answers)
    requires SavedDatesPast(config, s, now)
    ensures !AllHeldBack(s.saved, s.log + notes)
  {
    var due := Ascending(DueAccounts(config, s, now));
    var i :| 0 <= i < |due| && UsableUpTo(config, s, due, answers, i) && answers(due[i]).Failure?;
    OneNote(s.log, notes, i);
    assert due[i] in DueAccounts(config, s, now);
    assert !HeldBack(PersistedEntry(s.saved, due[i]), s.log + notes, due[i]);
  }

  /** A tick after which a restart is safe whatever was saved before: it gets to its end and is
      saved, or no account it reaches has failed. */
  ghost predicate CarefulTick(config: Config, s: System, now: Instant, answers: string -> Answer, storeOk: bool) {
    (AllUsable(config, s, now, answers) && storeOk) || !ReachesFailure(config, s, now, answers)
  }

  /** A restart after a tick keeps the backoff exactly when the tick got to its end and was
      saved, or no account it reached answered with a failure. */
  lemma TickSafeExactly(config: Config, s: System, now: Instant, answers: string -> Answer, storeOk: bool)
    requires Safe(s)
    ensures CarefulTick(config, s, now, answers, storeOk) ==> Safe(Tick(config, s, now, answers, storeOk))
    ensures
      SavedDatesPast(config, s, now) ==>
        (Safe(Tick(config, s, now, answers, storeOk)) <==> CarefulTick(config, s, now, answers, storeOk))
  {
    var after := Tick(config, s, now, answers, storeOk);
    TickKeepsBackoff(config, s, now, answers, storeOk);
    SavesExactly(config, s, Ticking(now, answers, storeOk));
    if AllUsable(config, s, now, answers) && storeOk {
      SavedEntriesSuffice(after);
    } else {
      var notes := NotesOfTick(config, s, now, answers, storeOk);
      SafeMeansSaved(s);
      SafeMeansSaved(after);
      UnsavedTickExactly(config, s, now, answers, notes);
    }
  }

  lemma UnsavedTickExactly(config: Config, s: System, now: Instant, answers: string -> Answer, notes: seq<Note>)
    requires TickNotes(config, s, now, answers, notes) && AllHeldBack(s.saved, s.log)
    ensures !ReachesFailure(config, s, now, answers) ==> AllHeldBack(s.saved, s.log + notes)
    ensures
      ReachesFailure(config, s, now, answers) && SavedDatesPast(config, s, now) ==>
        !AllHeldBack(s.saved, s.log + notes)
  {
    if !ReachesFailure(config, s, now, answers) {
      forall a: string ensures HeldBack(PersistedEntry(s.saved, a), s.log + notes, a) {
        assert HeldBack(PersistedEntry(s.saved, a), s.log, a);
        NoFailureKeeps(config, s, now, answers, notes, a);
      }
    } else if SavedDatesPast(config, s, now) {
      FailureLoses(config, s, now, answers, notes);
    }
  }

  // ---- whole lives ----

  /** No tick that reaches a failure ends without being saved. */
  ghost predicate Careful(config: Config, s: System, h: Happening) {
    h.Operated? && h.op.Ticking? ==> CarefulTick(config, s, h.op.now, h.op.answers, h.op.storeOk)
  }

  lemma LocateIsSafe(s: System, a: string, now: Instant, io: Io)
    requires Safe(s)
    ensures Safe(LocateNow(s, a, now, io))
  {
    var after := LocateNow(s, a, now, io);
    LocateKeepsBackoff(s, a, now, io);
    SafeMeansSaved(s);
    SafeMeansSaved(after);
    if a in s.accounts {
      if Ending(io).Ok? {
        SavedEntriesSuffice(after);
      } else {
        forall b: string ensures HeldBack(PersistedEntry(s.saved, b), after.log, b) {
          assert HeldBack(PersistedEntry(s.saved, b), s.log, b);
          NoteEffect(s.log, Located(a, now), b);
        }
      }
    }
  }

  /** What writes nothing to the log keeps a restart safe, whether it is saved or not. */
  lemma QuietIsSafe(s: System, after: System)
    requires Safe(s) && BackoffHolds(after) && after.log == s.log
    requires after.saved == s.saved || after.saved == after.state
    ensures Safe(after)
  {
    SafeMeansSaved(s);
    if after.saved == after.state {
      SavedEntriesSuffice(after);
    } else {
      SafeMeansSaved(after);
    }
  }

  lemma CarefulIsSafe(config: Config, s: System, h: Happening)
    requires Safe(s) && Careful(config, s, h)
    ensures Safe(Live(config, s, h))
  {
    match h
    case Interrupted => QuietIsSafe(s, Reopened(s));
    case Operated(op) =>
      StepKeepsBackoff(config, s, op);
      SavesExactly(config, s, op);
      match op
      case Ticking(now, answers, storeOk) => TickSafeExactly(config, s, now, answers, storeOk);
      case Locating(a, now, io) => LocateIsSafe(s, a, now, io);
      case _ => QuietIsSafe(s, Step(config, s, op));
  }

  ghost predicate SafeAt(config: Config, start: System, life: seq<Happening>, k: nat)
    requires k <= |life|
  {
    Safe(Lived(config, start, life, k))
  }

  ghost predicate CarefulAt(config: Config, start: System, life: seq<Happening>, k: nat)
    requires k < |life|
  {
    Careful(config, Lived(config, start, life, k), life[k])
  }

  ghost predicate SafeUpTo(config: Config, start: System, life: seq<Happening>, m: nat)
    requires m <= |life|
  {
    forall k | 0 <= k <= m :: SafeAt(config, start, life, k)
  }

  ghost predicate CarefulUpTo(config: Config, start: System, life: seq<Happening>, m: nat)
    requires m <= |life|
  {
    forall k | 0 <= k < m :: CarefulAt(config, start, life, k)
  }

  lemma LoadedIsSafe(state: Durable)
    ensures Safe(Loaded(state))
  {
    LoadedHoldsBack(state);
    SavedEntriesSuffice(Loaded(state));
  }

  lemma CarefulKeepsSafe(config: Config, start: System, life: seq<Happening>, n: nat, m: nat)
    requires n < |life| && m == n + 1 && SafeAt(config, start, life, n) && CarefulAt(config, start, life, n)
    ensures SafeAt(config, start, life, m)
  {
    CarefulIsSafe(config, Lived(config, start, life, n), life[n]);
  }

  /** Over all the lives of a scheduler, no account is polled before the retry interval of its
      consecutive failures has passed, unless it was located on request, as long as every tick
      that reaches a failure gets to its end and is saved. */
  lemma {:induction false} CarefulLivesAreSafe(config: Config, state: Durable, life: seq<Happening>, m: nat)
    requires m <= |life| && CarefulUpTo(config, Loaded(state), life, m)
    ensures SafeAt(config, Loaded(state), life, m)
  {
    if m == 0 {
      LoadedIsSafe(state);
    } else {
      var n := m - 1;
      CarefulLivesAreSafe(config, state, life, n);
      CarefulKeepsSafe(config, Loaded(state), life, n, m);
    }
  }

  /** A tick that reached a failure has ended unsaved, and nothing was saved since. */
  ghost predicate AtRisk(config: Config, start: System, life: seq<Happening>, m: nat)
    requires m <= |life|
  {
    if m == 0 then false
    else RiskAfter(config, Lived(config, start, life, m - 1), life[m - 1], AtRisk(config, start, life, m - 1))
  }

  lemma RiskNext(config: Config, start: System, life: seq<Happening>, n: nat, m: nat)
    requires n < |life| && m == n + 1
    ensures Lived(config, start, life, m) == Live(config, Lived(config, start, life, n), life[n])
    ensures
      AtRisk(config, start, life, m)
      == RiskAfter(config, Lived(config, start, life, n), life[n], AtRisk(config, start, life, n))
  {
  }

  ghost predicate RiskAfter(config: Config, s: System, h: Happening, before: bool) {
    var after := Live(config, s, h);
    after.saved != after.state && (before || !Careful(config, s, h))
  }

  ghost predicate RestartsAtNoRisk(config: Config, start: System, life: seq<Happening>, k: nat)
    requires k < |life|
  {
    life[k].Interrupted? ==> !AtRisk(config, start, life, k)
  }

  /** Safe to restart, unless at risk. */
  ghost predicate Guarded(s: System, risk: bool) {
    BackoffHolds(s) && (!risk ==> Safe(s))
  }

  lemma StaysGuarded(config: Config, s: System, h: Happening, risk: bool, after: System, riskAfter: bool)
    requires Guarded(s, risk) && (h.Interrupted? ==> !risk)
    requires after == Live(config, s, h) && riskAfter == RiskAfter(config, s, h, risk)
    ensures Guarded(after, riskAfter)
  {
    if h.Operated? {
      StepKeepsBackoff(config, s, h.op);
    }
    if after.saved == after.state && h.Operated? {
      SavedEntriesSuffice(after);
    } else if !risk && Careful(config, s, h) {
      CarefulIsSafe(config, s, h);
    }
  }

  ghost predicate GuardedAt(config: Config, start: System, life: seq<Happening>, k: nat)
    requires k <= |life|
  {
    Guarded(Lived(config, start, life, k), AtRisk(config, start, life, k))
  }

  lemma GuardKept(config: Config, start: System, life: seq<Happening>, n: nat, m: nat)
    requires n < |life| && m == n + 1 && RestartsAtNoRisk(config, start, life, n)
    requires GuardedAt(config, start, life, n)
    ensures GuardedAt(config, start, life, m)
  {
    RiskNext(config, start, life, n, m);
    StaysGuarded(config, Lived(config, start, life, n), life[n], AtRisk(config, start, life, n),
                 Lived(config, start, life, m), AtRisk(config, start, life, m));
  }

  /** A tick that reaches a failure may end unsaved without harm when something is saved before
      the process restarts: the backoff holds over all lives without a restart at risk. */
  lemma {:induction false} BackoffOutlivesRestarts(config: Config, state: Durable, life: seq<Happening>, m: nat)
    requires m <= |life| && forall k | 0 <= k < m :: RestartsAtNoRisk(config, Loaded(state), life, k)
    ensures GuardedAt(config, Loaded(state), life, m)
  {
    if m == 0 {
      LoadedIsSafe(state);
    } else {
      var n := m - 1;
      BackoffOutlivesRestarts(config, state, life, n);
      GuardKept(config, Loaded(state), life, n, m);
    }
  }

  // ---- the saved dates are never ahead ----

  /** What is saved about an account was due by the time of the last tick, unless the account in
      memory is in error and no earlier due; an account not in memory is saved as it is. */
  ghost predicate Behind(s: System, clock: Instant) {
    && Mirrored(s)
    && (forall a | a in s.accounts :: SavedBehind(PersistedEntry(s.saved, a), s.accounts[a], clock))
    && (forall a | a !in s.accounts :: PersistedEntry(s.state, a) == PersistedEntry(s.saved, a))
  }

  predicate SavedBehind(entry: Entry, account: Account, clock: Instant) {
    entry.errorCount > 0 && entry.nextDiscoveryAt.Some? ==>
      entry.nextDiscoveryAt.value <= clock
      || (account.errorCount > 0 && account.nextDiscoveryAt >= entry.nextDiscoveryAt.value)
  }

  lemma BehindMeansPast(config: Config, s: System, clock: Instant, now: Instant)
    requires Behind(s, clock) && clock <= now
    ensures SavedDatesPast(config, s, now)
  {
    forall a | a in DueAccounts(config, s, now) ensures
      var entry := PersistedEntry(s.saved, a);
      entry.errorCount > 0 && entry.nextDiscoveryAt.Some? ==> entry.nextDiscoveryAt.value <= now
    {
      assert SavedBehind(PersistedEntry(s.saved, a), s.accounts[a], clock);
    }
  }

  lemma SavedIsBehind(s: System, clock: Instant)
    requires Mirrored(s) && s.saved == s.state
    ensures Behind(s, clock)
  {
    forall a | a in s.accounts ensures SavedBehind(PersistedEntry(s.saved, a), s.accounts[a], clock) {
      assert MirrorOf(s.state.entries[a], s.accounts[a]);
    }
  }

  lemma RegisterBehind(s: System, clock: Instant, a: string, configured: set<string>)
    requires Behind(s, clock)
    ensures Behind(Register(s, a, configured), clock)
  {
    RegisterMirrored(s, a, configured);
    if a in s.accounts {
      assert MirrorOf(s.state.entries[a], s.accounts[a]);
      assert SavedBehind(PersistedEntry(s.saved, a), s.accounts[a], clock);
    }
  }

  lemma TickBehind(config: Config, s: System, clock: Instant, now: Instant, answers: string -> Answer, storeOk: bool)
    requires Behind(s, clock) && clock <= now
    ensures Behind(Tick(config, s, now, answers, storeOk), now)
  {
    var due := Ascending(DueAccounts(config, s, now));
    var polled := PollAll(config, s, due, answers, now);
    PollAllMirrored(config, s, due, answers, now);
    PollAllTouchesListed(config, s, due, answers, now);
    PollsSaveNothing(config, s, due, answers, now);
    var after := Tick(config, s, now, answers, storeOk);
    if polled.ok && storeOk {
      SavedIsBehind(after, now);
    } else {
      BehindMeansPast(config, s, clock, now);
      forall a | a in after.accounts ensures SavedBehind(PersistedEntry(after.saved, a), after.accounts[a], now) {
        assert SavedBehind(PersistedEntry(s.saved, a), s.accounts[a], clock);
        if a in due {
          assert a in DueAccounts(config, s, now);
        }
      }
    }
  }

  /** A request to locate a registered account is announced and saved. */
  predicate LocatesSaved(s: System, h: Happening) {
    h.Operated? && h.op.Locating? && h.op.account in s.accounts ==> Ending(h.op.io).Ok?
  }

  /** The time of the last tick. */
  function Clock(clock: Instant, h: Happening): Instant {
    if h.Operated? && h.op.Ticking? then h.op.now else clock
  }

  lemma StepBehind(config: Config, s: System, clock: Instant, h: Happening)
    requires Behind(s, clock) && LocatesSaved(s, h) && clock <= Clock(clock, h)
    ensures Behind(Live(config, s, h), Clock(clock, h))
  {
    match h
    case Interrupted =>
    case Operated(op) =>
      match op
      case Registering(a, configured) => RegisterBehind(s, clock, a, configured);
      case Ticking(now, answers, storeOk) => TickBehind(config, s, clock, now, answers, storeOk);
      case _ => QuietBehind(config, s, clock, op);
  }

  lemma QuietBehind(config: Config, s: System, clock: Instant, op: Operation)
    requires Behind(s, clock) && LocatesSaved(s, Operated(op)) && !op.Registering? && !op.Ticking?
    ensures Behind(Step(config, s, op), clock)
  {
    var after := Step(config, s, op);
    if after.saved == after.state {
      QuietMirrored(config, s, op);
      SavedIsBehind(after, clock);
    }
  }

  lemma QuietMirrored(config: Config, s: System, op: Operation)
    requires Mirrored(s) && !op.Registering? && !op.Ticking?
    ensures Mirrored(Step(config, s, op))
  {
  }

  function ClockAt(life: seq<Happening>, k: nat): Instant
    requires k <= |life|
  {
    if k == 0 then MIN_UTC else Clock(ClockAt(life, k - 1), life[k - 1])
  }

  /** Ticks come in time order, and location requests are announced and saved. */
  ghost predicate Orderly(config: Config, start: System, life: seq<Happening>, k: nat)
    requires k < |life|
  {
    LocatesSaved(Lived(config, start, life, k), life[k]) && ClockAt(life, k) <= Clock(ClockAt(life, k), life[k])
  }

  ghost predicate BehindAt(config: Config, start: System, life: seq<Happening>, k: nat)
    requires k <= |life|
  {
    Behind(Lived(config, start, life, k), ClockAt(life, k))
  }

  lemma LifeBehind(config: Config, start: System, life: seq<Happening>, n: nat, m: nat)
    requires n < |life| && m == n + 1
    requires Orderly(config, start, life, n) && BehindAt(config, start, life, n)
    ensures BehindAt(config, start, life, m)
  {
    StepBehind(config, Lived(config, start, life, n), ClockAt(life, n), life[n]);
  }

  lemma {:induction false} AlwaysBehind(config: Config, state: Durable, life: seq<Happening>, m: nat)
    requires m <= |life| && forall k | 0 <= k < m :: Orderly(config, Loaded(state), life, k)
    ensures BehindAt(config, Loaded(state), life, m)
  {
    if m > 0 {
      var n := m - 1;
      AlwaysBehind(config, state, life, n);
      LifeBehind(config, Loaded(state), life, n, m);
    }
  }

  lemma SafeStepExactly(config: Config, start: System, life: seq<Happening>, n: nat, m: nat)
    requires n < |life| && m == n + 1 && SafeAt(config, start, life, n)
    requires Orderly(config, start, life, n) && BehindAt(config, start, life, n)
    ensures SafeAt(config, start, life, m) <==> CarefulAt(config, start, life, n)
  {
    SafeLiveExactly(config, Lived(config, start, life, n), ClockAt(life, n), life[n]);
  }

  lemma SafeLiveExactly(config: Config, s: System, clock: Instant, h: Happening)
    requires Safe(s) && Behind(s, clock) && clock <= Clock(clock, h)
    ensures Safe(Live(config, s, h)) <==> Careful(config, s, h)
  {
    if h.Operated? && h.op.Ticking? {
      BehindMeansPast(config, s, clock, h.op.now);
      TickSafeExactly(config, s, h.op.now, h.op.answers, h.op.storeOk);
    } else {
      CarefulIsSafe(config, s, h);
    }
  }

  lemma OneMoreSafe(config: Config, start: System, life: seq<Happening>, n: nat, m: nat)
    requires n < |life| && m == n + 1
    ensures SafeUpTo(config, start, life, m) <==> SafeUpTo(config, start, life, n) && SafeAt(config, start, life, m)
    ensures SafeUpTo(config, start, life, n) ==> SafeAt(config, start, life, n)
  {
  }

  lemma OneMoreCareful(config: Config, start: System, life: seq<Happening>, n: nat, m: nat)
    requires n < |life| && m == n + 1
    ensures
      CarefulUpTo(config, start, life, m)
      <==> CarefulUpTo(config, start, life, n) && CarefulAt(config, start, life, n)
  {
    if CarefulUpTo(config, start, life, n) && CarefulAt(config, start, life, n) {
      forall k | 0 <= k < m ensures CarefulAt(config, start, life, k) {
        assert k < n || k == n;
      }
    }
  }

  /** Over all the lives of a scheduler in which ticks come in time order and location requests
      are saved, a restart is safe at every moment exactly when every tick that reaches a failure
      gets to its end and is saved. */
  lemma {:induction false} SafeThroughRestartsExactly(config: Config, state: Durable, life: seq<Happening>, m: nat)
    requires m <= |life| && forall k | 0 <= k < m :: Orderly(config, Loaded(state), life, k)
    ensures SafeUpTo(config, Loaded(state), life, m) <==> CarefulUpTo(config, Loaded(state), life, m)
  {
    if m == 0 {
      CarefulLivesAreSafe(config, state, life, 0);
    } else {
      var n := m - 1;
      SafeThroughRestartsExactly(config, state, life, n);
      if SafeAt(config, Loaded(state), life, n) {
        AlwaysBehind(config, state, life, n);
        SafeStepExactly(config, Loaded(state), life, n, m);
      }
      OneMoreSafe(config, Loaded(state), life, n, m);
      OneMoreCareful(config, Loaded(state), life, n, m);
    }
  }

  // ---- what a wait needs to survive a restart ----

  /** Some listed device was saved with an error. */
  predicate DeviceInError(saved: Durable, ids: set<string>) {
    exists d | d in ids :: d in saved.devices && saved.devices[d].errorCount > 0
  }

  /** Some listed device was saved with a deadline, and none with one before `wait`. */
  predicate DevicesWait(saved: Durable, ids: set<string>, wait: int) {
    && (exists d | d in ids :: d in saved.devices && saved.devices[d].nextUpdateAt.Some?)
    && forall d | d in ids && d in saved.devices && saved.devices[d].nextUpdateAt.Some? ::
         saved.devices[d].nextUpdateAt.value >= wait
  }

  predicate SavedPaused(saved: Durable, d: string) {
    d in saved.devices && saved.devices[d].paused
  }

  predicate SavedAfter(saved: Durable, d: string, wait: int) {
    d in saved.devices && saved.devices[d].nextUpdateAt.Some? && saved.devices[d].nextUpdateAt.value >= wait
  }

  /** What was saved keeps the account waiting: in error, by the entry's date, or by its devices
      if there is none; otherwise by all of its devices that are not paused, or, without devices,
      by the entry's date again. */
  predicate SavedWaits(config: Config, saved: Durable, a: string, configured: set<string>, wait: int) {
    var entry := PersistedEntry(saved, a);
    var ids := RegisteredIds(saved, a, configured);
    if entry.errorCount > 0 || DeviceInError(saved, ids) then
      if entry.nextDiscoveryAt.Some? then entry.nextDiscoveryAt.value >= wait else DevicesWait(saved, ids, wait)
    else if ids == {} then
      entry.nextDiscoveryAt.Some? && entry.nextDiscoveryAt.value >= wait + config.prefetch
    else
      forall d | d in ids :: SavedPaused(saved, d) || SavedAfter(saved, d, wait + config.prefetch)
  }

  ghost predicate NeverDueBefore(config: Config, account: Account, devices: map<string, Device>, wait: int) {
    forall t: Instant | t < wait :: !IsDue(config, account, devices, t)
  }

  lemma {:induction false} WaitingAfterMin(log: seq<Note>, a: string)
    ensures Waiting(log, a).Some? ==> Waiting(log, a).value > MIN_UTC
  {
    if log != [] {
      WaitingAfterMin(log[..|log| - 1], a);
    }
  }

  /** An account registered from what was saved is in error when its entry or a device was. */
  lemma ReadBackInError(saved: Durable, a: string, configured: set<string>)
    ensures
      RegisteredAccount(saved, a, configured).errorCount > 0
      <==> PersistedEntry(saved, a).errorCount > 0 || DeviceInError(saved, RegisteredIds(saved, a, configured))
  {
    var ids := RegisteredIds(saved, a, configured);
    MaxErrorsBounds(Ascending(ids), WithDevices(saved.devices, ids));
  }

  /** In error, its date is then the one saved, or that of its first device. */
  lemma ReadBackDate(config: Config, saved: Durable, a: string, configured: set<string>, wait: int)
    requires wait > MIN_UTC && RegisteredAccount(saved, a, configured).errorCount > 0
    ensures
      RegisteredAccount(saved, a, configured).nextDiscoveryAt >= wait
      <==> SavedWaits(config, saved, a, configured, wait)
  {
    ReadBackInError(saved, a, configured);
    var ids := RegisteredIds(saved, a, configured);
    EarliestBounds(Ascending(ids), WithDevices(saved.devices, ids));
  }

  /** In error the account is not due before `wait` exactly when its date is not before it. */
  lemma ErrorWaitsExactly(config: Config, account: Account, devices: map<string, Device>, wait: int)
    requires account.errorCount > 0
    ensures
      NeverDueBefore(config, account, devices, wait) <==> account.nextDiscoveryAt >= wait
  {
    if account.nextDiscoveryAt < wait {
      assert IsDue(config, account, devices, account.nextDiscoveryAt);
    }
  }

  lemma IdleWaitsExactly(config: Config, saved: Durable, a: string, configured: set<string>, wait: int)
    requires wait > MIN_UTC && RegisteredAccount(saved, a, configured).errorCount == 0
    ensures
      var account := RegisteredAccount(saved, a, configured);
      NeverDueBefore(config, account, WithDevices(saved.devices, account.deviceIds), wait)
      <==> SavedWaits(config, saved, a, configured, wait)
  {
    ReadBackInError(saved, a, configured);
    var ids := RegisteredIds(saved, a, configured);
    var account, devices := RegisteredAccount(saved, a, configured), WithDevices(saved.devices, ids);
    var last: Instant := wait - 1;
    if !SavedWaits(config, saved, a, configured, wait) {
      assert IsDue(config, account, devices, last);
    }
  }

  /** An account registered after a restart is not due before its wait is over exactly when what
      was saved of it and of its devices keeps it waiting. */
  lemma WaitSurvivesExactly(config: Config, s: System, a: string, configured: set<string>)
    requires Waiting(s.log, a).Some?
    ensures
      var again := Register(Reopened(s), a, configured);
      var wait := Waiting(s.log, a).value;
      NeverDueBefore(config, again.accounts[a], again.state.devices, wait)
      <==> SavedWaits(config, s.saved, a, configured, wait)
  {
    WaitingAfterMin(s.log, a);
    var account := RegisteredAccount(s.saved, a, configured);
    var devices := WithDevices(s.saved.devices, account.deviceIds);
    var wait := Waiting(s.log, a).value;
    if account.errorCount > 0 {
      ErrorWaitsExactly(config, account, devices, wait);
      ReadBackDate(config, s.saved, a, configured, wait);
    } else {
      IdleWaitsExactly(config, s.saved, a, configured, wait);
    }
  }
}
