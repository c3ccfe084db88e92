// Availability gating of the route service: retries, growing pauses after repeated
// failures, and the final pause that only a person can lift.
module Waze {
  import opened Core

  const REQUEST_ATTEMPTS: nat := 3

  /** Gate state shared by all fetches. */
  datatype Gate = Gate(consecutiveErrors: nat, pausedUntil: Option<Instant>, manuallyPaused: bool)

  const RESET := Gate(0, None, false)

  predicate IsPaused(g: Gate, now: Instant) {
    g.manuallyPaused || (g.pausedUntil.Some? && now < g.pausedUntil.value)
  }

  function PauseSeconds(errors: nat): Option<nat> {
    if errors == 10 then Some(600)
    else if errors == 20 then Some(1800)
    else if errors == 30 then Some(3600)
    else None
  }

  function Failed(g: Gate, now: Instant): Gate {
    var errors := IncrementU32(g.consecutiveErrors);
    if errors > 40 then Gate(0, None, true)
    else
      match PauseSeconds(errors)
      case Some(seconds) => g.(consecutiveErrors := errors, pausedUntil := Some(now + Seconds(seconds)))
      case None => g.(consecutiveErrors := errors)
  }

  function Succeeded(g: Gate): Gate {
    g.(consecutiveErrors := 0, pausedUntil := None)
  }

  // ---- a fetch ----

  /** How one request attempt ends. An envelope that decodes counts as a working service even
      if no route can be read from it. */
  datatype Attempt = TransportError | StatusError | DecodeError | Envelope(routeFound: bool)

  datatype Fetched = Paused | OutOfRange | Used | Unreadable | Refused(attempts: nat)

  /** The attempts of one fetch, the distance of its route, and the clock when it starts and when
      it gives up. */
  datatype Fetch = Fetch(
    inRange: bool, first: Attempt, second: Attempt, third: Attempt, startedAt: Instant, gaveUpAt: Instant)

  function AttemptOf(f: Fetch, i: nat): Attempt
    requires i < REQUEST_ATTEMPTS
  {
    if i == 0 then f.first else if i == 1 then f.second else f.third
  }

  predicate Fruitless(f: Fetch) {
    !f.first.Envelope? && !f.second.Envelope? && !f.third.Envelope?
  }

  predicate Sends(g: Gate, f: Fetch) {
    !IsPaused(g, f.startedAt) && f.inRange
  }

  /** The first envelope of a fetch that gets one. */
  function Answer(f: Fetch): Attempt {
    if f.first.Envelope? then f.first else if f.second.Envelope? then f.second else f.third
  }

  function AfterFetch(g: Gate, f: Fetch): Gate {
    if !Sends(g, f) then g
    else if Fruitless(f) then Failed(g, f.gaveUpAt)
    else Succeeded(g)
  }

  function Outcome(g: Gate, f: Fetch): Fetched {
    if IsPaused(g, f.startedAt) then Paused
    else if !f.inRange then OutOfRange
    else if Fruitless(f) then Refused(REQUEST_ATTEMPTS)
    else if Answer(f) == Envelope(true) then Used
    else Unreadable
  }

  class WazeAvailability {
    var consecutiveErrors: nat
    var pausedUntil: Option<Instant>
    var manuallyPaused: bool

    ghost function Contents(): Gate
      reads this
    {
      Gate(consecutiveErrors, pausedUntil, manuallyPaused)
    }

    constructor ()
      ensures Contents() == RESET
    {
      consecutiveErrors, pausedUntil, manuallyPaused := 0, None, false;
    }

    method RecordFailure(now: Instant)
      modifies this
      ensures Contents() == Failed(old(Contents()), now)
    {
      consecutiveErrors := IncrementU32(consecutiveErrors);
      var seconds := PauseSeconds(consecutiveErrors);
      if seconds.Some? {
        pausedUntil := Some(now + Seconds(seconds.value));
      }
      if consecutiveErrors > 40 {
        consecutiveErrors := 0;
        pausedUntil := None;
        manuallyPaused := true;
      }
    }

    method RecordSuccess()
      modifies this
      ensures Contents() == Succeeded(old(Contents()))
    {
      consecutiveErrors := 0;
      pausedUntil := None;
    }

    method SetManualPause(paused: bool)
      modifies this
      ensures Contents() == old(Contents()).(manuallyPaused := paused)
    {
      manuallyPaused := paused;
    }

    /** At most three attempts, stopping at the first envelope. */
    method RunFetch(f: Fetch) returns (outcome: Fetched)
      modifies this
      ensures Contents() == AfterFetch(old(Contents()), f)
      ensures outcome == Outcome(old(Contents()), f)
    {
      if IsPaused(Gate(consecutiveErrors, pausedUntil, manuallyPaused), f.startedAt) {
        return Paused;
      }
      if !f.inRange {
        return OutOfRange;
      }
      for i := 0 to REQUEST_ATTEMPTS
        invariant Contents() == old(Contents())
        invariant forall j: nat | j < i :: !AttemptOf(f, j).Envelope?
      {
        match AttemptOf(f, i) {
          case Envelope(routeFound) =>
            assert i > 0 ==> !AttemptOf(f, 0).Envelope?;
            assert i > 1 ==> !AttemptOf(f, 1).Envelope?;
            RecordSuccess();
            return if routeFound then Used else Unreadable;
          case _ =>
        }
      }
      assert !AttemptOf(f, 0).Envelope? && !AttemptOf(f, 1).Envelope? && !AttemptOf(f, 2).Envelope?;
      RecordFailure(f.gaveUpAt);
      outcome := Refused(REQUEST_ATTEMPTS);
    }
  }

  // ---- whole runs ----

  datatype Operation = Fetching(fetch: Fetch) | ManualPause(paused: bool)

  function Apply(g: Gate, op: Operation): Gate {
    match op
    case Fetching(f) => AfterFetch(g, f)
    case ManualPause(paused) => g.(manuallyPaused := paused)
  }

  function After(run: seq<Operation>, m: nat): Gate
    requires m <= |run|
  {
    if m == 0 then RESET else Apply(After(run, m - 1), run[m - 1])
  }

  /** Fetches follow one another on a clock that does not go back. */
  ghost predicate Sequential(run: seq<Operation>) {
    && (forall i | 0 <= i < |run| && run[i].Fetching? :: run[i].fetch.startedAt <= run[i].fetch.gaveUpAt)
    && (forall i, j | 0 <= i < j < |run| && run[i].Fetching? && run[j].Fetching? ::
          run[i].fetch.gaveUpAt <= run[j].fetch.startedAt)
  }

  predicate FailsAt(run: seq<Operation>, k: nat)
    requires k < |run|
  {
    run[k].Fetching? && Sends(After(run, k), run[k].fetch) && Fruitless(run[k].fetch)
  }

  predicate SucceedsAt(run: seq<Operation>, k: nat)
    requires k < |run|
  {
    run[k].Fetching? && Sends(After(run, k), run[k].fetch) && !Fruitless(run[k].fetch)
  }

  /** The failed fetches since the last success or the last final pause. */
  function Failures(run: seq<Operation>, m: nat): seq<Fetch>
    requires m <= |run|
  {
    if m == 0 then []
    else if SucceedsAt(run, m - 1) then []
    else if FailsAt(run, m - 1) then
      if |Failures(run, m - 1)| == 40 then [] else Failures(run, m - 1) + [run[m - 1].fetch]
    else Failures(run, m - 1)
  }

  /** Consecutive failures are in clock order, and those numbered 11, 21 and 31 waited out the
      pause of the failure before them. */
  ghost predicate Paced(failures: seq<Fetch>) {
    && (forall i | 0 <= i < |failures| :: failures[i].startedAt <= failures[i].gaveUpAt)
    && (forall i | 0 < i < |failures| :: failures[i - 1].gaveUpAt <= failures[i].startedAt)
    && (|failures| > 10 ==> failures[10].startedAt >= failures[9].gaveUpAt + Seconds(600))
    && (|failures| > 20 ==> failures[20].startedAt >= failures[19].gaveUpAt + Seconds(1800))
    && (|failures| > 30 ==> failures[30].startedAt >= failures[29].gaveUpAt + Seconds(3600))
  }

  /** The gate counts the failures, and after the 10th, 20th and 30th it is closed for the pause. */
  ghost predicate GateSummarizes(g: Gate, failures: seq<Fetch>) {
    && g.consecutiveErrors == |failures| <= 40
    && (|failures| == 10 ==> g.pausedUntil == Some(failures[9].gaveUpAt + Seconds(600)))
    && (|failures| == 20 ==> g.pausedUntil == Some(failures[19].gaveUpAt + Seconds(1800)))
    && (|failures| == 30 ==> g.pausedUntil == Some(failures[29].gaveUpAt + Seconds(3600)))
  }

  /** Every counted failure is one of the first `m` operations. */
  ghost predicate FailuresWere(run: seq<Operation>, m: nat)
    requires m <= |run|
  {
    forall f | f in Failures(run, m) :: exists k :: 0 <= k < m && run[k] == Fetching(f)
  }

  lemma {:induction false} FailuresHappened(run: seq<Operation>, m: nat)
    requires m <= |run|
    ensures FailuresWere(run, m)
  {
    if m > 0 {
      FailuresHappened(run, m - 1);
      forall f | f in Failures(run, m) ensures exists k :: 0 <= k < m && run[k] == Fetching(f) {
        if f in Failures(run, m - 1) {
          var k :| 0 <= k < m - 1 && run[k] == Fetching(f);
        } else {
          assert run[m - 1] == Fetching(f);
        }
      }
    }
  }

  lemma OneMoreFailure(g: Gate, failures: seq<Fetch>, f: Fetch)
    requires GateSummarizes(g, failures) && Paced(failures) && |failures| < 40
    requires !IsPaused(g, f.startedAt) && f.startedAt <= f.gaveUpAt
    requires failures != [] ==> failures[|failures| - 1].gaveUpAt <= f.startedAt
    ensures GateSummarizes(Failed(g, f.gaveUpAt), failures + [f]) && Paced(failures + [f])
  {
  }

  lemma LastFailureBefore(run: seq<Operation>, n: nat)
    requires n < |run| && Sequential(run) && run[n].Fetching? && Failures(run, n) != []
    ensures Failures(run, n)[|Failures(run, n)| - 1].gaveUpAt <= run[n].fetch.startedAt
  {
    FailuresHappened(run, n);
    var last := Failures(run, n)[|Failures(run, n)| - 1];
    assert last in Failures(run, n);
    var k :| 0 <= k < n && run[k] == Fetching(last);
  }

  ghost predicate Counted(g: Gate, failures: seq<Fetch>) {
    GateSummarizes(g, failures) && Paced(failures)
  }

  lemma CountKept(run: seq<Operation>, n: nat)
    requires n < |run| && Sequential(run) && Counted(After(run, n), Failures(run, n))
    ensures Counted(After(run, n + 1), Failures(run, n + 1))
  {
    var g, failures := After(run, n), Failures(run, n);
    if FailsAt(run, n) && |failures| < 40 {
      if failures != [] {
        LastFailureBefore(run, n);
      }
      OneMoreFailure(g, failures, run[n].fetch);
    }
  }

  /** In every state the error count is the number of failures since the last success, at most
      forty, and those failures respected every pause. */
  lemma {:induction false} GateCountsFailures(run: seq<Operation>, m: nat)
    requires m <= |run| && Sequential(run)
    ensures Counted(After(run, m), Failures(run, m))
  {
    if m > 0 {
      var n := m - 1;
      GateCountsFailures(run, n);
      CountKept(run, n);
    }
  }

  lemma {:induction false} PacedSpan(failures: seq<Fetch>, i: nat, j: nat)
    requires Paced(failures) && i <= j < |failures|
    ensures failures[i].startedAt <= failures[j].gaveUpAt && failures[i].gaveUpAt <= failures[j].gaveUpAt
    decreases j
  {
    if i < j {
      PacedSpan(failures, i, j - 1);
    }
  }

  /** The failure after forty counted ones comes at least 600 + 1800 + 3600 seconds after the
      first of them began, and closes the gate for good. */
  lemma FortyFirstFailure(run: seq<Operation>, n: nat)
    requires n < |run| && Sequential(run) && FailsAt(run, n) && |Failures(run, n)| == 40
    ensures run[n].fetch.gaveUpAt - Failures(run, n)[0].startedAt >= Seconds(600 + 1800 + 3600)
    ensures After(run, n + 1) == Gate(0, None, true)
  {
    GateCountsFailures(run, n);
    var failures := Failures(run, n);
    PacedSpan(failures, 0, 9);
    PacedSpan(failures, 10, 19);
    PacedSpan(failures, 20, 29);
    PacedSpan(failures, 30, 39);
    LastFailureBefore(run, n);
  }

  /** A gate closed by hand or for good stays closed, and sends nothing, until it is reopened
      by hand. */
  lemma {:induction false} ClosedUntilReopened(run: seq<Operation>, m: nat, n: nat)
    requires m <= n <= |run| && After(run, m).manuallyPaused
    requires forall k | m <= k < n :: run[k] != ManualPause(false)
    ensures After(run, n).manuallyPaused
    ensures forall k | m <= k < n && run[k].Fetching? :: Outcome(After(run, k), run[k].fetch) == Paused
    decreases n
  {
    if m < n {
      ClosedUntilReopened(run, m, n - 1);
      assert run[n - 1] != ManualPause(false);
    }
  }

  // ---- when the gate is shut, and when it opens again ----

  /** When the last timed pause among these failures ends: ten minutes after the tenth of them,
      half an hour after the twentieth, an hour after the thirtieth. */
  function PauseEnds(failures: seq<Fetch>): Option<Instant> {
    if |failures| >= 30 then Some(failures[29].gaveUpAt + Seconds(3600))
    else if |failures| >= 20 then Some(failures[19].gaveUpAt + Seconds(1800))
    else if |failures| >= 10 then Some(failures[9].gaveUpAt + Seconds(600))
    else None
  }

  /** The gate was last shut by hand, or for good by the forty-first failure in a row, and not
      opened by hand since. */
  predicate ShutForGood(run: seq<Operation>, m: nat)
    requires m <= |run|
  {
    if m == 0 then false
    else
      match run[m - 1]
      case ManualPause(paused) => paused
      case Fetching(_) => ShutForGood(run, m - 1) || (FailsAt(run, m - 1) && |Failures(run, m - 1)| == 40)
  }

  /** The pauses of the gate are those of its history. */
  ghost predicate PausesSummarized(run: seq<Operation>, m: nat)
    requires m <= |run|
  {
    After(run, m).pausedUntil == PauseEnds(Failures(run, m)) && After(run, m).manuallyPaused == ShutForGood(run, m)
  }

  lemma PauseEndsGrows(failures: seq<Fetch>, f: Fetch)
    requires |failures| < 40
    ensures
      PauseEnds(failures + [f])
      == match PauseSeconds(|failures| + 1)
         case Some(seconds) => Some(f.gaveUpAt + Seconds(seconds))
         case None => PauseEnds(failures)
  {
  }

  lemma PausesKept(run: seq<Operation>, n: nat)
    requires n < |run| && Sequential(run) && Counted(After(run, n), Failures(run, n)) && PausesSummarized(run, n)
    ensures PausesSummarized(run, n + 1)
  {
    if FailsAt(run, n) && |Failures(run, n)| < 40 {
      PauseEndsGrows(Failures(run, n), run[n].fetch);
    }
  }

  lemma {:induction false} GateIsItsHistory(run: seq<Operation>, m: nat)
    requires m <= |run| && Sequential(run)
    ensures PausesSummarized(run, m)
  {
    if m > 0 {
      var n := m - 1;
      GateIsItsHistory(run, n);
      GateCountsFailures(run, n);
      PausesKept(run, n);
    }
  }

  /** The first of the three attempts that gets an envelope, if one does. */
  predicate FirstEnvelope(f: Fetch, i: nat, routeFound: bool) {
    i < 3 && AttemptOf(f, i) == Envelope(routeFound) && forall j | 0 <= j < i :: !AttemptOf(f, j).Envelope?
  }

  /** A fetch in range is sent exactly when the gate was not shut by hand or for good and the last
      timed pause is over. What is sent is used, or unreadable, as the first envelope says, and
      given up after three attempts without one. */
  lemma SentExactly(run: seq<Operation>, m: nat, f: Fetch)
    requires m <= |run| && Sequential(run)
    ensures
      var ends := PauseEnds(Failures(run, m));
      var open := !ShutForGood(run, m) && (ends.Some? ==> f.startedAt >= ends.value);
      var outcome := Outcome(After(run, m), f);
      && (outcome == Paused <==> !open)
      && (outcome == OutOfRange <==> open && !f.inRange)
      && (outcome == Used <==> open && f.inRange && exists i :: FirstEnvelope(f, i, true))
      && (outcome == Unreadable <==> open && f.inRange && exists i :: FirstEnvelope(f, i, false))
      && (outcome == Refused(3) <==> open && f.inRange && forall i | 0 <= i < 3 :: !AttemptOf(f, i).Envelope?)
  {
    GateIsItsHistory(run, m);
    if !Fruitless(f) {
      var i := if f.first.Envelope? then 0 else if f.second.Envelope? then 1 else 2;
      assert FirstEnvelope(f, i, AttemptOf(f, i).routeFound);
      assert !f.first.Envelope? ==> !AttemptOf(f, 0).Envelope?;
      assert !f.second.Envelope? ==> !AttemptOf(f, 1).Envelope?;
      forall k, found | FirstEnvelope(f, k, found) ensures k == i {
        assert AttemptOf(f, i).Envelope?;
      }
    } else {
      forall i | 0 <= i < 3 ensures !AttemptOf(f, i).Envelope? {
      }
    }
  }
}
