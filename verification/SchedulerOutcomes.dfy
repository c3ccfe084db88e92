// What a poll, and a whole tick, leave of each device, in terms of the answers alone: its
// deadline, its errors and its nearby group; and what the groups found do at the next zone exit.
module SchedulerOutcomes {
  import opened Core
  import opened Order
  import opened Scheduler
  import opened SchedulerBackoff
  import opened SchedulerDeadlines
  import opened SchedulerIsolation

  // ---- the devices of one answer ----

  /** Choosing the wanted snapshots keeps their order. */
  lemma {:induction false} RelevantConcat(configured: Option<set<string>>, a: seq<Snapshot>, b: seq<Snapshot>)
    ensures Relevant(configured, a + b) == Relevant(configured, a) + Relevant(configured, b)
  {
    if b == [] {
      assert a + b == a;
    } else {
      assert (a + b)[..|a + b| - 1] == a + b[..|b| - 1];
      RelevantConcat(configured, a, b[..|b| - 1]);
    }
  }

  lemma {:induction false} RelevantDistinct(configured: Option<set<string>>, snapshots: seq<Snapshot>)
    requires DistinctIds(snapshots)
    ensures DistinctIds(Relevant(configured, snapshots))
  {
    if snapshots != [] {
      var front, last := snapshots[..|snapshots| - 1], snapshots[|snapshots| - 1];
      assert snapshots == front + [last];
      RelevantDistinct(configured, front);
      forall i | 0 <= i < |Relevant(configured, front)| ensures Relevant(configured, front)[i].id != last.id {
        RelevantMember(configured, front, Relevant(configured, front)[i]);
      }
    }
  }

  /** The account was configured with the device, or with none at all. */
  predicate Asked(configured: Option<set<string>>, d: string) {
    configured == None || d in configured.value
  }

  /** The account asked for the device, and got a snapshot of it. */
  ghost predicate AnsweredFor(configured: Option<set<string>>, snapshots: seq<Snapshot>, d: string) {
    exists snapshot :: snapshot in snapshots && snapshot.id == d && Asked(configured, d)
  }

  /** What the refreshes of one answer make of its devices, and of all others. */
  lemma RefreshedExactly(config: Config, devices: map<string, Device>, configured: Option<set<string>>,
                         snapshots: seq<Snapshot>, now: Instant)
    requires DistinctIds(snapshots)
    requires RefreshAll(config, devices, Relevant(configured, snapshots), now).ok
    ensures
      var after := RefreshAll(config, devices, Relevant(configured, snapshots), now).devices;
      && (forall snapshot | snapshot in snapshots && Asked(configured, snapshot.id) ::
            && snapshot.id in after
            && after[snapshot.id] == RefreshDevice(config, KnownOrNew(devices, snapshot.id), snapshot, now).0)
      && (forall d | d in devices && !AnsweredFor(configured, snapshots, d) :: d in after && after[d] == devices[d])
  {
    var relevant := Relevant(configured, snapshots);
    RelevantDistinct(configured, snapshots);
    RefreshesAreIndependent(config, devices, relevant, now);
    forall snapshot | snapshot in snapshots && Asked(configured, snapshot.id) ensures snapshot in relevant {
      RelevantMember(configured, snapshots, snapshot);
    }
    forall d, i | d in devices && !AnsweredFor(configured, snapshots, d) && 0 <= i < |relevant|
      ensures relevant[i].id != d
    {
      RelevantMember(configured, snapshots, relevant[i]);
    }
  }

  // ---- settling an account ----

  /** A device keeps the deadline it has, and gets the default one if it has none. */
  ghost predicate SettledTo(before: Device, after: Device, fallback: Instant) {
    && after.nextUpdateAt == (if before.nextUpdateAt.Some? then before.nextUpdateAt else Some(fallback))
    && after.errorCount == 0 && after.paused == before.paused && after.tracks == before.tracks
    && after.nearbyGroup == before.nearbyGroup
  }

  /** Settling an account after a successful poll forgets the errors of its devices, and gives
      those without a deadline the default one; it moves no deadline and no other device. */
  lemma SettlingMovesNoDeadline(config: Config, s: System, a: string, refreshed: set<string>, now: Instant)
    requires a in s.accounts
    ensures
      var ids := if s.accounts[a].configured.Some? then s.accounts[a].configured.value else refreshed;
      var after := FinishPoll(config, s, a, refreshed, now).state.devices;
      && after.Keys == s.state.devices.Keys
      && forall d | d in after ::
           if d in ids then SettledTo(s.state.devices[d], after[d], now + config.defaultInterval)
           else after[d] == s.state.devices[d]
  {
  }

  // ---- one poll ----

  ghost predicate GroupedAs(devices: map<string, Device>, groups: map<string, nat>) {
    forall d | d in devices ::
      match devices[d].nearbyGroup
      case None => d !in groups
      case Some(n) => d in groups && groups[d] == n
  }

  /** The deadlines of a device that a successful poll answered for. */
  ghost predicate DecidedFor(config: Config, before: Device, snapshot: Snapshot, now: Instant, after: Device)
    requires Decidable(config, snapshot)
  {
    && after.paused == before.paused && after.errorCount == 0
    && if before.paused then
         after.nextUpdateAt == Some(before.nextUpdateAt.GetOr(now + config.defaultInterval))
       else if snapshot.offline then
         && after.nextUpdateAt == Some(now + Seconds(OfflineWait(snapshot.locationAgeSeconds)))
         && forall z | z in after.tracks :: after.tracks[z] == after.nextUpdateAt
       else OnlineDeadlines(config, snapshot, now, before, after)
  }

  /** A refresh followed by settling the account it was made for. */
  lemma RefreshedAndSettled(config: Config, before: Device, snapshot: Snapshot, now: Instant, after: Device)
    requires Decidable(config, snapshot)
    requires
      var refreshed := RefreshDevice(config, before, snapshot, now).0;
      && after.paused == refreshed.paused && after.tracks == refreshed.tracks && after.errorCount == 0
      && after.nextUpdateAt
         == (if refreshed.nextUpdateAt.Some? then refreshed.nextUpdateAt else Some(now + config.defaultInterval))
    ensures DecidedFor(config, before, snapshot, now, after)
  {
    RefreshKeepsRest(config, before, snapshot, now);
    if !before.paused {
      if snapshot.offline {
        OfflineTogether(config, before, snapshot, now);
      } else {
        EarliestIntervalWins(config, before, snapshot, now);
      }
    }
  }

  /** A successful poll gives every device it answered for the deadlines decided for it, or keeps
      them if it is paused, and leaves all others as they were, except that the account's own
      devices are without errors and have some deadline. Every device is in the group found for
      it, or in none. */
  lemma PollDecides(config: Config, s: System, a: string, snapshots: seq<Snapshot>, groups: map<string, nat>,
                    now: Instant)
    requires a in s.accounts && DistinctIds(snapshots)
    requires Usable(config, s.accounts[a].configured, Found(snapshots, groups))
    ensures
      var after := Poll(config, s, a, Found(snapshots, groups), now).s.state.devices;
      && GroupedAs(after, groups)
      && (forall snapshot | snapshot in snapshots && Asked(s.accounts[a].configured, snapshot.id) ::
            && snapshot.id in after
            && DecidedFor(config, KnownOrNew(s.state.devices, snapshot.id), snapshot, now, after[snapshot.id]))
      && forall d | d in s.state.devices && !AnsweredFor(s.accounts[a].configured, snapshots, d) ::
           && d in after && after[d].paused == s.state.devices[d].paused && after[d].tracks == s.state.devices[d].tracks
           && (if s.accounts[a].configured.Some? && d in s.accounts[a].configured.value then
                 && after[d].errorCount == 0
                 && after[d].nextUpdateAt == Some(s.state.devices[d].nextUpdateAt.GetOr(now + config.defaultInterval))
               else
                 && after[d].errorCount == s.state.devices[d].errorCount
                 && after[d].nextUpdateAt == s.state.devices[d].nextUpdateAt)
  {
    var configured := s.accounts[a].configured;
    var relevant := Relevant(configured, snapshots);
    PollOkExactly(config, s, a, Found(snapshots, groups), now);
    RefreshedExactly(config, s.state.devices, configured, snapshots, now);
    var regrouped := s.(state := s.state.(devices :=
                          Regrouped(RefreshAll(config, s.state.devices, relevant, now).devices, groups)),
                        log := s.log + [Polled(a, now, false)]);
    SettlingMovesNoDeadline(config, regrouped, a, SnapshotIds(relevant), now);
    var after := Poll(config, s, a, Found(snapshots, groups), now).s.state.devices;
    forall snapshot | snapshot in snapshots && Asked(configured, snapshot.id)
      ensures
        && snapshot.id in after
        && DecidedFor(config, KnownOrNew(s.state.devices, snapshot.id), snapshot, now, after[snapshot.id])
    {
      RelevantMember(configured, snapshots, snapshot);
      RefreshedAndSettled(config, KnownOrNew(s.state.devices, snapshot.id), snapshot, now, after[snapshot.id]);
    }
    forall d | d in SnapshotIds(relevant) ensures AnsweredFor(configured, snapshots, d) {
      var snapshot :| snapshot in relevant && snapshot.id == d;
      RelevantMember(configured, snapshots, snapshot);
    }
  }

  /** After a successful poll the account lists the devices it is configured with, or else those
      that were answered for; it has no errors and remembers the earliest of their deadlines, and
      its entry says the same. */
  lemma PollRemembersEarliest(config: Config, s: System, a: string, snapshots: seq<Snapshot>,
                              groups: map<string, nat>, now: Instant)
    requires a in s.accounts && Usable(config, s.accounts[a].configured, Found(snapshots, groups))
    ensures
      var after := Poll(config, s, a, Found(snapshots, groups), now).s;
      var (account, devices) := (after.accounts[a], after.state.devices);
      && account.errorCount == 0 && account.configured == s.accounts[a].configured
      && (forall d ::
            d in account.deviceIds
            <==> if account.configured.Some? then d in account.configured.value
                 else exists snapshot :: snapshot in snapshots && snapshot.id == d)
      && (forall d | d in account.deviceIds && d in devices ::
            devices[d].nextUpdateAt.Some? && account.nextDiscoveryAt <= devices[d].nextUpdateAt.value)
      && ((exists d :: d in account.deviceIds && d in devices) ==>
            exists d ::
              d in account.deviceIds && d in devices && devices[d].nextUpdateAt == Some(account.nextDiscoveryAt))
      && after.state.entries
         == s.state.entries[a := Entry(account.deviceIds, 0, Some(account.nextDiscoveryAt))]
  {
    var configured := s.accounts[a].configured;
    var relevant := Relevant(configured, snapshots);
    PollOkExactly(config, s, a, Found(snapshots, groups), now);
    var regrouped := s.(state := s.state.(devices :=
                          Regrouped(RefreshAll(config, s.state.devices, relevant, now).devices, groups)),
                        log := s.log + [Polled(a, now, false)]);
    RemembersEarliest(config, regrouped, a, SnapshotIds(relevant), now);
    forall d
      ensures configured.None? ==>
                (d in SnapshotIds(relevant) <==> exists snapshot :: snapshot in snapshots && snapshot.id == d)
    {
      forall snapshot: Snapshot ensures configured.None? ==> (snapshot in relevant <==> snapshot in snapshots) {
        RelevantMember(configured, snapshots, snapshot);
      }
    }
  }

  // ---- a whole tick ----

  /** Only the nearby group of the device may have changed. */
  ghost predicate SameButGroup(before: map<string, Device>, after: map<string, Device>, d: string) {
    && (d in after <==> d in before)
    && (d in before ==> after[d] == before[d].(nearbyGroup := after[d].nearbyGroup))
  }

  /** Neither the account nor its answer has to do with the device. */
  ghost predicate Uninvolved(s: System, answers: string -> Answer, b: string, d: string)
    requires b in s.accounts
  {
    && d !in s.accounts[b].deviceIds
    && (s.accounts[b].configured.Some? ==> d !in s.accounts[b].configured.value)
    && (answers(b).Found? ==> !AnsweredFor(s.accounts[b].configured, answers(b).snapshots, d))
  }

  lemma {:induction false} RefreshesLeave(config: Config, devices: map<string, Device>, snapshots: seq<Snapshot>,
                                          now: Instant, d: string)
    requires forall snapshot | snapshot in snapshots :: snapshot.id != d
    ensures
      var after := RefreshAll(config, devices, snapshots, now).devices;
      (d in after <==> d in devices) && (d in devices ==> after[d] == devices[d])
  {
    if snapshots != [] {
      RefreshesLeave(config, devices, snapshots[..|snapshots| - 1], now, d);
    }
  }

  lemma PollLeaves(config: Config, s: System, b: string, answers: string -> Answer, now: Instant, d: string)
    requires b in s.accounts && Uninvolved(s, answers, b, d)
    ensures SameButGroup(s.state.devices, Poll(config, s, b, answers(b), now).s.state.devices, d)
  {
    if answers(b).Found? {
      var configured, snapshots := s.accounts[b].configured, answers(b).snapshots;
      var relevant := Relevant(configured, snapshots);
      forall snapshot | snapshot in relevant ensures snapshot.id != d {
        RelevantMember(configured, snapshots, snapshot);
      }
      RefreshesLeave(config, s.state.devices, relevant, now, d);
    }
  }

  lemma AccountStillThere(config: Config, s: System, due: seq<string>, answers: string -> Answer, now: Instant, n: nat)
    requires StrictlyAscending(due) && (forall a | a in due :: a in s.accounts) && n < |due|
    ensures
      var before := PollAll(config, s, due[..n], answers, now).s;
      due[n] in before.accounts && before.accounts[due[n]] == s.accounts[due[n]]
  {
    PollAllTouchesListed(config, s, due[..n], answers, now);
    assert due[n] !in due[..n];
  }

  lemma OneMorePoll(config: Config, s: System, due: seq<string>, answers: string -> Answer, now: Instant, n: nat,
                    m: nat)
    requires StrictlyAscending(due) && (forall a | a in due :: a in s.accounts) && n < |due| && m == n + 1
    ensures
      var before := PollAll(config, s, due[..n], answers, now);
      && due[n] in before.s.accounts && before.s.accounts[due[n]] == s.accounts[due[n]]
      && PollAll(config, s, due[..m], answers, now)
         == if before.ok then Poll(config, before.s, due[n], answers(due[n]), now) else before
  {
    AccountStillThere(config, s, due, answers, now, n);
    assert due[..m][..n] == due[..n] && due[..m][n] == due[n];
  }

  /** The devices after the first `k` polls. */
  function DevicesAfter(config: Config, s: System, due: seq<string>, answers: string -> Answer, now: Instant,
                        k: nat): map<string, Device>
    requires k <= |due| && forall a | a in due :: a in s.accounts
  {
    PollAll(config, s, due[..k], answers, now).s.state.devices
  }

  lemma {:induction false} PollsLeave(config: Config, s: System, due: seq<string>, answers: string -> Answer,
                                      now: Instant, i: nat, k: nat, d: string)
    requires StrictlyAscending(due) && (forall a | a in due :: a in s.accounts) && i <= k <= |due|
    requires forall j | i <= j < k :: Uninvolved(s, answers, due[j], d)
    ensures
      SameButGroup(DevicesAfter(config, s, due, answers, now, i), DevicesAfter(config, s, due, answers, now, k), d)
    decreases k
  {
    if i < k {
      var n := k - 1;
      PollsLeave(config, s, due, answers, now, i, n, d);
      OneMorePoll(config, s, due, answers, now, n, k);
      var before := PollAll(config, s, due[..n], answers, now);
      if before.ok {
        PollLeaves(config, before.s, due[n], answers, now, d);
      }
    }
  }

  /** A poll is reached with its account as it was, and all polls before it went well. */
  lemma PollReached(config: Config, s: System, due: seq<string>, answers: string -> Answer, now: Instant, i: nat)
    requires StrictlyAscending(due) && (forall a | a in due :: a in s.accounts) && i < |due|
    requires UsableUpTo(config, s, due, answers, i)
    ensures PollAll(config, s, due[..i], answers, now).ok
  {
    PollAllReaches(config, s, due[..i], answers, now);
    assert forall j | 0 <= j < i :: due[..i][j] == due[j];
  }

  lemma DecidedWhateverTheGroup(config: Config, before: Device, same: Device, snapshot: Snapshot, now: Instant,
                                after: Device, final: Device)
    requires Decidable(config, snapshot) && DecidedFor(config, same, snapshot, now, after)
    requires same == before.(nearbyGroup := same.nearbyGroup) && final == after.(nearbyGroup := final.nearbyGroup)
    ensures DecidedFor(config, before, snapshot, now, final)
  {
  }

  /** The account is due, and so far every due account up to it has got a usable answer. */
  ghost predicate GetsThrough(config: Config, s: System, now: Instant, answers: string -> Answer, a: string) {
    && a in DueAccounts(config, s, now) && answers(a).Found?
    && forall b | b in DueAccounts(config, s, now) && StringLe(b, a) :: UsableAnswer(config, s, answers, b)
  }

  lemma PlaceOf(config: Config, s: System, now: Instant, answers: string -> Answer, a: string) returns (i: nat)
    requires GetsThrough(config, s, now, answers, a)
    ensures
      var due := Ascending(DueAccounts(config, s, now));
      && StrictlyAscending(due) && (forall b | b in due :: b in s.accounts) && i < |due| && due[i] == a
      && PollAll(config, s, due[..i], answers, now).ok && UsableAnswer(config, s, answers, a)
      && (forall j | 0 <= j < |due| && j != i :: due[j] in DueAccounts(config, s, now) && due[j] != a)
      && forall j | i < j < |due| :: !StringLe(due[j], a)
  {
    var due := Ascending(DueAccounts(config, s, now));
    AscendingIsStrict(DueAccounts(config, s, now));
    i :| 0 <= i < |due| && due[i] == a;
    StringLeTotal(a, a);
    forall j | i < j < |due| ensures !StringLe(due[j], a) {
      if StringLe(due[j], a) {
        StringLeAntisymmetric(due[j], a);
      }
    }
    PollReached(config, s, due, answers, now, i);
  }

  lemma PollInTick(config: Config, s: System, now: Instant, answers: string -> Answer, a: string, i: nat, m: nat,
                   snapshot: Snapshot)
    requires
      var due := Ascending(DueAccounts(config, s, now));
      && StrictlyAscending(due) && (forall b | b in due :: b in s.accounts) && i < |due| && m == i + 1 && due[i] == a
      && PollAll(config, s, due[..i], answers, now).ok && UsableAnswer(config, s, answers, a)
    requires answers(a).Found? && DistinctIds(answers(a).snapshots)
    requires snapshot in answers(a).snapshots && Asked(s.accounts[a].configured, snapshot.id)
    ensures
      var due := Ascending(DueAccounts(config, s, now));
      var before := DevicesAfter(config, s, due, answers, now, i);
      var after := DevicesAfter(config, s, due, answers, now, m);
      && snapshot.id in after && Decidable(config, snapshot)
      && DecidedFor(config, KnownOrNew(before, snapshot.id), snapshot, now, after[snapshot.id])
  {
    var due := Ascending(DueAccounts(config, s, now));
    OneMorePoll(config, s, due, answers, now, i, m);
    var before := PollAll(config, s, due[..i], answers, now).s;
    PollDecides(config, before, a, answers(a).snapshots, answers(a).groups, now);
    assert Refreshable(config, snapshot);
  }

  /** A device that only one due account has to do with ends the tick with the deadlines decided
      for it, if that account is reached and its answer is usable. */
  lemma TickDecides(config: Config, s: System, now: Instant, answers: string -> Answer, storeOk: bool, a: string,
                    snapshot: Snapshot)
    requires GetsThrough(config, s, now, answers, a) && DistinctIds(answers(a).snapshots)
    requires snapshot in answers(a).snapshots && Asked(s.accounts[a].configured, snapshot.id)
    requires forall b | b in DueAccounts(config, s, now) && b != a :: Uninvolved(s, answers, b, snapshot.id)
    ensures
      var after := Tick(config, s, now, answers, storeOk).state.devices;
      && snapshot.id in after && Decidable(config, snapshot)
      && DecidedFor(config, KnownOrNew(s.state.devices, snapshot.id), snapshot, now, after[snapshot.id])
  {
    var due, d := Ascending(DueAccounts(config, s, now)), snapshot.id;
    var i := PlaceOf(config, s, now, answers, a);
    var m := i + 1;
    assert due[..0] == [] && due[..|due|] == due;
    PollsLeave(config, s, due, answers, now, 0, i, d);
    PollInTick(config, s, now, answers, a, i, m, snapshot);
    PollsLeave(config, s, due, answers, now, m, |due|, d);
    DecidedWhateverTheGroup(config, KnownOrNew(s.state.devices, d),
                            KnownOrNew(DevicesAfter(config, s, due, answers, now, i), d), snapshot, now,
                            DevicesAfter(config, s, due, answers, now, m)[d],
                            DevicesAfter(config, s, due, answers, now, |due|)[d]);
  }

  // ---- nearby groups ----

  lemma {:induction false} FailuresKeepGroups(config: Config, s: System, due: seq<string>, answers: string -> Answer,
                                              now: Instant, i: nat, k: nat, groups: map<string, nat>)
    requires StrictlyAscending(due) && (forall a | a in due :: a in s.accounts) && i <= k <= |due|
    requires forall j | i <= j < k :: answers(due[j]).Failure?
    requires GroupedAs(DevicesAfter(config, s, due, answers, now, i), groups)
    ensures GroupedAs(DevicesAfter(config, s, due, answers, now, k), groups)
    decreases k
  {
    if i < k {
      var n := k - 1;
      FailuresKeepGroups(config, s, due, answers, now, i, n, groups);
      OneMorePoll(config, s, due, answers, now, n, k);
    }
  }

  lemma PollRegroups(config: Config, s: System, a: string, answer: Answer, now: Instant)
    requires a in s.accounts && answer.Found? && Usable(config, s.accounts[a].configured, answer)
    ensures GroupedAs(Poll(config, s, a, answer, now).s.state.devices, answer.groups)
  {
    PollOkExactly(config, s, a, answer, now);
  }

  /** The account is the last one due whose poll succeeds. */
  ghost predicate FindsLast(config: Config, s: System, now: Instant, answers: string -> Answer, a: string) {
    && GetsThrough(config, s, now, answers, a)
    && forall b | b in DueAccounts(config, s, now) && !StringLe(b, a) :: answers(b).Failure?
  }

  /** After a tick every device is in the group that the last successful poll found for it, or in
      none. */
  lemma TickRegroups(config: Config, s: System, now: Instant, answers: string -> Answer, storeOk: bool, a: string)
    requires FindsLast(config, s, now, answers, a)
    ensures GroupedAs(Tick(config, s, now, answers, storeOk).state.devices, answers(a).groups)
  {
    var due := Ascending(DueAccounts(config, s, now));
    var i := PlaceOf(config, s, now, answers, a);
    var m := i + 1;
    assert due[..|due|] == due;
    OneMorePoll(config, s, due, answers, now, i, m);
    PollRegroups(config, PollAll(config, s, due[..i], answers, now).s, a, answers(a), now);
    FailuresKeepGroups(config, s, due, answers, now, m, |due|, answers(a).groups);
  }

  lemma FollowedRegroups(refresh: Refresh, companions: set<string>, groups: map<string, nat>, sinkOk: bool, at: Instant)
    requires refresh.ok
    ensures GroupedAs(Followed(refresh, companions, groups, sinkOk, at).devices, groups)
  {
  }

  /** After an external update that gets through, likewise. */
  lemma ExternalRegroups(config: Config, s: System, snapshot: Snapshot, zoneExit: bool, groups: map<string, nat>,
                         io: Io, now: Instant)
    requires Refreshable(config, snapshot)
    ensures GroupedAs(External(config, s, snapshot, zoneExit, groups, io, now).state.devices, groups)
  {
    RefreshKeepsRest(config, KnownOrNew(s.state.devices, snapshot.id), snapshot, now);
    FollowedRegroups(RefreshOne(config, s.state.devices, snapshot, now),
                     Companions(s.state.devices, snapshot.id, zoneExit), groups, io.sinkOk,
                     now + Seconds(EXIT_DELAY_SECONDS));
  }

  /** An external update that does not get through leaves its own device as far as its refresh got,
      and nothing else changed or saved. */
  lemma ExternalStops(config: Config, s: System, snapshot: Snapshot, zoneExit: bool, groups: map<string, nat>,
                      io: Io, now: Instant)
    requires !Refreshable(config, snapshot)
    ensures
      var device := RefreshDevice(config, KnownOrNew(s.state.devices, snapshot.id), snapshot, now).0;
      External(config, s, snapshot, zoneExit, groups, io, now)
      == s.(state := s.state.(devices := s.state.devices[snapshot.id := device]))
  {
    RefreshKeepsRest(config, KnownOrNew(s.state.devices, snapshot.id), snapshot, now);
  }

  predicate FoundTogether(groups: map<string, nat>, a: string, b: string) {
    a in groups && b in groups && groups[a] == groups[b]
  }

  /** When a tick has found groups and one of their devices is then reported to leave a zone, the
      unpaused devices found together with it, and no others, are due within two minutes. */
  lemma FoundTogetherLeaveTogether(config: Config, s: System, now: Instant, answers: string -> Answer, storeOk: bool,
                                   a: string, snapshot: Snapshot, found: map<string, nat>, io: Io, later: Instant,
                                   d: string)
    requires FindsLast(config, s, now, answers, a) && Refreshable(config, snapshot) && d != snapshot.id
    requires
      var between := Tick(config, s, now, answers, storeOk).state.devices;
      d in between && snapshot.id in between
    ensures
      var between := Tick(config, s, now, answers, storeOk);
      var before := between.state.devices[d];
      var after := External(config, between, snapshot, true, found, io, later).state.devices;
      && d in after && GroupedAs(after, found)
      && after[d].nextUpdateAt
         == (if FoundTogether(answers(a).groups, snapshot.id, d) && !before.paused
             then Earlier(before.nextUpdateAt, Some(later + Seconds(120)))
             else before.nextUpdateAt)
      && TracksMoved(before.tracks, after[d].tracks, after[d].nextUpdateAt != before.nextUpdateAt, later + Seconds(120))
  {
    var between := Tick(config, s, now, answers, storeOk);
    TickRegroups(config, s, now, answers, storeOk, a);
    ZoneExitHastensCompanions(config, between, snapshot, true, found, io, later, d);
    ExternalRegroups(config, between, snapshot, true, found, io, later);
    GroupIsShared(between.state.devices, answers(a).groups, snapshot.id, d);
  }

  lemma GroupIsShared(devices: map<string, Device>, groups: map<string, nat>, a: string, b: string)
    requires GroupedAs(devices, groups) && a in devices && b in devices
    ensures SameGroup(devices, a, b) <==> FoundTogether(groups, a, b)
  {
  }
}
