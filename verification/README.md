# Verified core of the iCloud tracker

A Dafny model of the tracker's deterministic core and proofs of what it promises. Each module
follows one source file or component; objects that the code updates in place are classes whose
methods are proved against a specification function of the old state, and the properties are
lemmas about those functions, over all inputs and all sequences of operations.

- **Sign-in** (`Srp`, `ModularArithmetic`): the client side of RFC 5054 with the RFC 2945 proofs,
  beside an honest server, over an arbitrary group.
- **Zones** (`Zones`, `ZoneState`): selection of the smallest containing zone, and the pass-through
  delay as a statement about the history of selections.
- **Stationary zones** (`Stationary`, `StationaryRuns`, `StationaryEffects`, `StationaryRecords`,
  `StationaryDwell`): the pool of zones created around devices that stay put, its invariants and
  bounds over every sequence of operations, what each operation does in a reachable state, and the
  dwell rule over each device's history of observations.
- **Nearby devices** (`Nearby`, `NearbyAssignment`): the depth-first search for connected
  components, and what each device is told of its group.
- **Locations** (`Quality`, `DeviceState`): acceptance of Apple and external samples in any
  interleaving, battery and availability.
- **Intervals** (`Interval`, `IntervalSituations`): the layers that decide how long to wait, and the
  exact situation of every choice.
- **Scheduler** (`Scheduler`, `Runtime`, `SchedulerBackoff`, `SchedulerIsolation`,
  `SchedulerDeadlines`, `SchedulerOutcomes`, `SchedulerRequests`, `SchedulerRestart`,
  `SchedulerRecovery`, `SchedulerExamples`): polling, backoff, isolation of accounts, deadlines,
  requests and restart. `Scheduler` gives each operation as a function from state to state;
  `Runtime` is the object with the loops, each method proved to compute the function of its
  operation; the others hold the properties, and `SchedulerExamples` the concrete inputs at which
  a promise fails.
- **Smaller loops** (`Naming`, `Waze`): unique device names, and the route service's gate.
- `Core` and `Order` hold shared values, machine limits, string order and sorting.

Conventions. Time is an integer number of nanoseconds, not before the calendar library's earliest
instant, which the scheduler uses as "never set". Distances and factors are reals, and distance is a
parameter assumed symmetric and non-negative where that matters. SHA-256, PBKDF2 and base64 are
parameters. Saturating and truncating conversions of machine integers are written out.

## Findings

Places where the code does less than it promises or than one might expect, each with an exact
condition and a concrete input:

- A tick is documented to fail only when an event cannot be emitted or the state cannot be saved,
  "so one account cannot stop other accounts" (`src/runtime.rs:474-477`), and failures are called
  isolated (`docs/PARITY_EXCEPTIONS.md:46`). Provider errors are; but a location whose accuracy is
  negative cannot be judged (`crates/icloud-tracking/src/quality.rs:56-64`), and that error ends
  the tick (`src/runtime.rs:512` and `src/runtime.rs:760`), and with it the loop of
  `src/runtime.rs:573`. A due account is reached exactly when every due account before it got a
  usable answer (`SchedulerIsolation.TickPollsDueOnce`), and the tick saves exactly when all of
  them did (`SchedulerIsolation.SavesExactly`). In
  `SchedulerExamples.NegativeAccuracyStopsTicks` a second account is due in every tick and never
  polled.
- An explicit request is said to make an account immediately due (`src/runtime.rs:286`); it does
  exactly when the account is in error, has no devices, or has a device that is not paused
  (`SchedulerBackoff.LocateMakesDueExactly`; `SchedulerExamples.LocatedNeverDue`).
- Pausing all devices does not silence an account in error
  (`SchedulerRequests.PauseAllSilencesExactly`; `SchedulerExamples.PausedYetDue`).
- Accounts survive a restart exactly when none of their devices has more errors than they have,
  and in error they know when they are due (`SchedulerRestart.ReachableRestartsExactly`). Two
  accounts whose answers share a device do not: the failure of one is read back as an error of the
  other, which is then due later (`SchedulerExamples.SharedDeviceBreaksRestart`).
- Resuming is said to make devices immediately due (`src/runtime.rs:235`); their account is due
  at once exactly when it is not in error or has waited out its failures already
  (`SchedulerRequests.ResumeMakesDueExactly`; `SchedulerExamples.ResumedNotDue`).
- The backoff can be lost in a restart. A tick ends early at an answer that cannot be used or at a
  warning that cannot be emitted (`src/runtime.rs:552-557`), and is then not saved. A restart after
  a tick is safe exactly when the tick got to its end and was saved, or no account it reached
  answered with a failure (`SchedulerRecovery.TickSafeExactly`); over whole lives, with ticks in
  time order and location requests saved, it is safe at every moment exactly when every tick was
  like that (`SchedulerRecovery.SafeThroughRestartsExactly`). The input is
  `SchedulerExamples.UnannouncedFailureForgotten`.
- Active stationary zones stay separated along a run exactly when every move in it goes clear of
  the other active zones (`StationaryRuns.StaysSeparatedExactly`;
  `StationaryRuns.MovesCanOverlapZones`). With different radii the smaller one counts.
- A farther device can be polled sooner: the fixed step of 900 seconds just under 40 km is longer
  than the computed interval just beyond it (`Interval.FartherPollsLaterExactly`;
  `Interval.FartherPollsSooner`).
- An age threshold of n seconds refuses a sample only from n + 1 seconds on, because the age is
  truncated to whole seconds (`Quality.VerdictExactly`; `Quality.AgeIsTruncated`).

## Model

| member | source | states |
|---|---|---|
| Srp.BytesDecode | crates/icloud-findmy/src/srp.rs:158-167 | Decoding the minimal or the padded big-endian form gives the integer back |
| Srp.PadWidth | crates/icloud-findmy/src/srp.rs:158-167 | Every integer below 256^256 pads to exactly 256 bytes |
| Srp.PaddedPairDetermined | crates/icloud-findmy/src/srp.rs:109-110 | With the first key in range, the concatenation of two padded keys determines both, even when the second is wider than the padding |
| Srp.GroupFitsPadding | crates/icloud-findmy/src/srp.rs:12-24 | The group modulus is above one and below 256^256, so its residues fit the padding |
| Srp.ScramblingInputDetermined | crates/icloud-findmy/src/srp.rs:109-113 | In Apple's group the bytes hashed into the scrambling parameter commit to both public keys |
| Srp.SecretsAgree | crates/icloud-findmy/src/srp.rs:115-121 | For any group and exponents, if B is congruent to k times v plus g^b, the client's secret, whose subtraction never underflows, equals the server's |
| Srp.HonestSecretsAgree | crates/icloud-findmy/src/srp.rs:61-70 | The keys that the client and an honest server compute meet that hypothesis, so their secrets are equal |
| Srp.HonestServerAccepts | crates/icloud-findmy/src/srp.rs:76-150 | Against a server that enrolled the same password and computes the verifier, both keys, the scrambling and the two proofs from the hashes themselves, the proof is exactly the pair M1, M2 the server expects, or one of the two refusals for a zero key or zero scrambling |
| Srp.PasswordHashed | crates/icloud-findmy/src/srp.rs:93-98 | PBKDF2 is fed the digest of the password under s2k, the 64 lowercase digits that spell it under s2k_fo, and nothing under any other protocol |
| Srp.RefusedExactly | crates/icloud-findmy/src/srp.rs:82-113 | The exact conditions, in order, of every refusal: an undecodable challenge, a server key that is a multiple of N, a protocol other than the two, and a zero scrambling parameter |
| Srp.XorUndoes | crates/icloud-findmy/src/srp.rs:125-129 | The mask of the two group hashes is reversible, byte by byte |
| Srp.HashParts | crates/icloud-findmy/src/srp.rs:169-175 | Feeding the parts one by one hashes their concatenation |
| Srp.LowercaseHex | crates/icloud-findmy/src/srp.rs:181-189 | The text has two lowercase hexadecimal digits a byte and decodes to the bytes |
| Zones.NewZoneSet | crates/icloud-tracking/src/zone.rs:56-76 | Accepts exactly the lists of well-formed zones with distinct ids; a duplicate refusal names the first repeated id |
| Zones.SelectZone | crates/icloud-tracking/src/zone.rs:89-125 | The loop with its in-place sorts computes the selection whose properties follow |
| Zones.SelectsSmallestContaining | crates/icloud-tracking/src/zone.rs:89-125 | A choice is made exactly for a valid accuracy and active zones on the map; the chosen zone is active, contains the point allowing for half the accuracy in whole meters, and is least by radius and id among all such; none is chosen exactly when there is none |
| Zones.DistancesAreSortedPermutation | crates/icloud-tracking/src/zone.rs:99-112 | The distances report exactly the active zones, as many as there are, in order of distance and id |
| Zones.SelectionIgnoresOrder | crates/icloud-tracking/src/zone.rs:89-125 | For valid zone sets the whole result is the same for every order of configuration |
| Zones.ClosestIsNearest | crates/icloud-tracking/src/zone.rs:132-147 | With all zones of a radius over one meter on the map, and only then, the closest of them is reported, passive ones included; none exactly when there is none |
| Order.StringLeExactly | crates/icloud-tracking/src/zone.rs:113-117 | Ids compare as in a dictionary: by the first character in which they differ, a proper prefix first |
| ZoneState.ZoneTransitionState.Update | crates/icloud-tracking/src/zone_state.rs:40-95 | The whole new transition state, and the exit and entry events that the change of zone implies |
| ZoneState.PendingSummarizesHistory | crates/icloud-tracking/src/zone_state.rs:40-95 | In every state a pending zone means no current zone, and its confirmation time is the delay after the start of the uninterrupted run of selections still in progress |
| ZoneState.DelayIsExact | crates/icloud-tracking/src/zone_state.rs:60-75 | From no zone, a delayed zone (with a delay configured, not tracked from and not named as stationary) is entered at a selection exactly when it is the first of its uninterrupted run to come at least the delay after the run began |
| ZoneState.UndelayedIsImmediate | crates/icloud-tracking/src/zone_state.rs:40-95 | Every other selection becomes the current zone at once |
| ZoneState.EventsReplayToState | crates/icloud-tracking/src/zone_state.rs:40-95 | The emitted events are a legal history, and replaying them yields the current zone with its entry and exit data |
| ZoneState.ZoneOccupancy.Counts | crates/icloud-tracking/src/zone_state.rs:113-120 | Each zone's count is the number of devices in it, and only occupied zones are listed |
| Stationary.StationaryZoneManager.Observe | crates/icloud-tracking/src/stationary.rs:70-155 | One observation changes the four pieces of state, and answers, as the specification step does |
| Stationary.StationaryZoneManager.ObserveExisting | crates/icloud-tracking/src/stationary.rs:178-208 | The part of an observation for a device already in a zone, likewise |
| Stationary.StationaryZoneManager.MoveToDevice | crates/icloud-tracking/src/stationary.rs:157-176 | An explicit move, likewise, with its error for a device in no zone |
| Stationary.StationaryZoneManager.ReusableZone | crates/icloud-tracking/src/stationary.rs:210-218 | If a zone is found it is inactive and was removed at least the cooldown ago, and no earlier one is; if none is found, every zone is active or was removed too recently |
| StationaryRuns.ReachableConsistent | crates/icloud-tracking/src/stationary.rs:70-208 | In every reachable state the device index and the occupants agree, a zone is active exactly when occupied, inactive zones have a removal time, housed devices have no timer, and zone i is named stationary_{i+1} |
| StationaryRuns.ZoneNeverMissing | crates/icloud-tracking/src/stationary.rs:178-190 | The missing-zone error is unreachable: the exact inputs for which an operation fails |
| StationaryRuns.EventsRebuildState | crates/icloud-tracking/src/stationary.rs:70-208 | Replaying all emitted events rebuilds the device index and the set of active zones |
| StationaryRuns.ActiveZonesSeparated | crates/icloud-tracking/src/stationary.rs:106-130 | Without explicit moves, any two active zones are more than one and a half of the smaller radius apart in every reachable state |
| StationaryRuns.MoveSeparatedExactly | crates/icloud-tracking/src/stationary.rs:157-176 | A move keeps the separation exactly when the target is clear of every other active zone |
| StationaryRuns.StaysSeparatedExactly | crates/icloud-tracking/src/stationary.rs:106-176 | All along a run of observations and moves the active zones stay separated exactly when every move goes clear of the other active zones |
| StationaryRuns.MovesCanOverlapZones | crates/icloud-tracking/src/stationary.rs:157-176 | Three concrete operations after which two active zones are not separated |
| StationaryRecords.PushedOnlyWhenNeeded | crates/icloud-tracking/src/stationary.rs:106-130 | A record is pushed exactly when a device settles and every record is active out of reach or was removed less than the cooldown ago |
| StationaryRecords.RecordsBoundedByDevices | crates/icloud-tracking/src/stationary.rs:106-130 | With no cooldown and observations in time order, there are never more records than distinct devices observed |
| StationaryDwell.TimersSummarizeHistory | crates/icloud-tracking/src/stationary.rs:80-105 | The timer map is an exact summary of the observations: a timer is the time since which every sighting found the device still, and a stay ends exactly at a sighting out of reach |
| StationaryDwell.EntersExactlyAfterDwelling | crates/icloud-tracking/src/stationary.rs:80-137 | A device enters a stationary zone exactly when it was outside one, is seen still (tracking on, a good fix, not merely monitored, in no active configured zone, within the movement limit), and every sighting has found it still for the configured time |
| StationaryEffects.LeavesExactly | crates/icloud-tracking/src/stationary.rs:178-208 | In every reachable state an accepted observation ends a stay exactly when it is more than one and a half radii from the center of the zone; the zone closes exactly when it empties, the timer starts, and those events are emitted; otherwise nothing changes |
| StationaryEffects.AssessedExactly | crates/icloud-tracking/src/stationary.rs:80-105 | When a device outside every stationary zone is seen still, restless or unfit to count, and when the observation fails |
| StationaryEffects.SettlesExactly | crates/icloud-tracking/src/stationary.rs:106-155 | The zone a device enters is the first active one within one and a half radii, which only gains the device; failing that the first removed at least the cooldown ago, put around the device; failing that the next new one |
| StationaryEffects.MovesExactly | crates/icloud-tracking/src/stationary.rs:157-176 | A move recenters the zone of a housed device and changes nothing else; for any other device it fails |
| Nearby.BuildAdjacency | crates/icloud-tracking/src/nearby.rs:64-91 | The nested loops link exactly the eligible pairs |
| Nearby.Explore | crates/icloud-tracking/src/nearby.rs:94-108 | The stack search terminates and returns exactly the devices connected to its root, each once |
| Nearby.Components | crates/icloud-tracking/src/nearby.rs:93-116 | The groups are exactly the components of at least two, sorted, and numbered from one in order of first appearance |
| Nearby.GroupNearbyDevices | crates/icloud-tracking/src/nearby.rs:45-118 | Fails exactly on invalid thresholds or accuracies, and otherwise returns those components |
| Nearby.SharedGroupMeansPath | crates/icloud-tracking/src/nearby.rs:93-116 | Two devices share a group exactly when a path of eligible pairs joins them |
| Nearby.GroupsDisjoint | crates/icloud-tracking/src/nearby.rs:93-116 | No device is in two groups |
| Nearby.EdgesAreEligiblePairs | crates/icloud-tracking/src/nearby.rs:68-91 | With distinct ids, an edge between two devices means that both are tracked, online and no watches, in the same zone, within the distance, and that one accurate fix of the two suffices |
| NearbyAssignment.NearbyState.UpdateNearbyDevices | src/runtime.rs:1231-1310 | Clears and then tells every device its group and nearest member, or changes nothing exactly when a located device has a negative accuracy |
| NearbyAssignment.NearestInLeast | src/runtime.rs:1280-1294 | The nearest member is another member with a location, none is nearer, and ties go to the lesser id |
| NearbyAssignment.ToldExactly | src/runtime.rs:1263-1308 | A device is told a group exactly when it is in one, with that group's number and its own nearest member, and nothing else about it changes |
| NearbyAssignment.GroupedExactly | src/runtime.rs:1231-1310 | A device has a group exactly when some other located device, online and no watch, is in the same zone within 25 meters and one of the two is accurate to 25 meters |
| NearbyAssignment.SameGroupMeansSteps | src/runtime.rs:1231-1310 | Two devices are told the same group exactly when eligible steps lead from one to the other |
| NearbyAssignment.NearestIsNear | src/runtime.rs:1280-1306 | The nearest device told is in the same group, at the stated distance, within 25 meters, and no farther than any other member |
| NearbyAssignment.UpdateNeverFails | src/runtime.rs:1172 | When every location shown was accepted for its device, finding the groups again cannot fail |
| Quality.VerdictExactly | crates/icloud-tracking/src/quality.rs:49-92 | Each verdict and reason holds exactly for its condition on order, age in exact time, accuracy and the bad updates so far |
| Quality.AgeIsTruncated | crates/icloud-tracking/src/quality.rs:68-71 | With a threshold of 120 seconds a sample 120.9 seconds old is good and one 121 seconds old is not |
| Quality.BetterIsNoWorse | crates/icloud-tracking/src/quality.rs:49-92 | A newer, more accurate sample after fewer bad ones is never judged worse |
| Quality.AcceptedExactly | crates/icloud-tracking/src/external.rs:44-83 | When an external sample is accepted: accurate, and newer than the current one by a whole second more than the margin; and exactly when it is refused as inaccurate, known already, or stale |
| Quality.ArbitratedOnlyFailsOnAge | crates/icloud-tracking/src/external.rs:44-83 | What the arbiter accepts the quality policy can only object to for its age |
| Quality.ThresholdShape | crates/icloud-tracking/src/quality.rs:112-152 | The range of the age threshold in each situation, and that longer intervals never tighten it |
| Quality.ThresholdExactly | crates/icloud-tracking/src/quality.rs:112-152 | The exact age threshold in each situation, in quotients of the shortest tracked interval, with the configured maximum and adjustment |
| DeviceState.DeviceTrackingState.ApplyLocation | crates/icloud-tracking/src/state.rs:130-144 | The location state after a judged sample, rejected ones included |
| DeviceState.DeviceTrackingState.AcceptLocation | crates/icloud-tracking/src/state.rs:146-154 | The accepted sample becomes current, the old current previous, with the distance moved |
| DeviceState.DeviceTrackingState.UpdateBattery | crates/icloud-tracking/src/state.rs:156-164 | Only a reading that is not older replaces the battery |
| DeviceState.DeviceTrackingState.UpdateAvailability | crates/icloud-tracking/src/state.rs:166-174 | The offline time is set once, kept while offline, and cleared on return |
| DeviceState.StateRemembersAccepted | crates/icloud-tracking/src/state.rs:130-154 | Through any interleaving of Apple and external updates the state holds the last two accepted samples, their distance and time, and accepted times never go back |
| DeviceState.LocationNeverGoesBack | src/runtime.rs:751-763 | Between any two points of a history the current timestamp never decreases, equals the last update time, and the previous sample is never newer |
| DeviceState.CurrentIsValid | crates/icloud-tracking/src/quality.rs:56-64 | In every reachable state the current location has no invalid accuracy |
| DeviceState.ConsideredExactly | crates/icloud-tracking/src/external.rs:44-83 | An update is judged at all exactly when its accuracy is valid and, from elsewhere, it is accurate and at least six seconds newer than the known location |
| DeviceState.GraceExactly | crates/icloud-tracking/src/quality.rs:80-91 | A defective sample in order is accepted exactly when fewer than the configured number of bad ones came since the last good one |
| DeviceState.GraceBounded | crates/icloud-tracking/src/quality.rs:80-91 | Between two good samples at most the configured number of bad ones are accepted |
| DeviceState.BatteryIsNewest | crates/icloud-tracking/src/state.rs:156-164 | After any readings the battery shown is the latest received among the newest |
| DeviceState.OfflineSinceRunBegan | crates/icloud-tracking/src/state.rs:166-174 | A device is offline since the first report of its current unbroken offline stretch |
| DeviceState.HistoryIsLatest | crates/icloud-tracking/src/state.rs:213-219 | The event history is always the latest thousand events in order |
| Interval.Determine | crates/icloud-tracking/src/interval.rs:197-342 | The layered reassignments compute the decision the following bounds are about, with the context error |
| Interval.RetryGrows | crates/icloud-tracking/src/interval.rs:103-114 | Retry intervals never shrink as errors accumulate, and lie between 5 seconds and an hour |
| Interval.FartherPollsLaterExactly | crates/icloud-tracking/src/interval.rs:53-99 | The distance interval grows with the distance except across 40 km, and exactly when it does not |
| Interval.FartherPollsSooner | crates/icloud-tracking/src/interval.rs:84-98 | At 39 km the interval is 900 seconds, at 40 km it is 720 |
| Interval.DecisionsAreFives | crates/icloud-tracking/src/interval.rs:330-337 | Every decision is at least 5 seconds and a multiple of 5 |
| Interval.UnknownDirectionBound | crates/icloud-tracking/src/interval.rs:197-337 | With unknown direction outside a stationary zone the wait is at most 180 seconds |
| Interval.TravelTimeBound | crates/icloud-tracking/src/interval.rs:318-337 | On the road with a known travel time the wait is at most one and a half scaled travel times, or 5 seconds |
| Interval.MaximumBound | crates/icloud-tracking/src/interval.rs:300-337 | Outside zones with a good online fix, no timer, no stationary zone and no fixed interval, the maximum holds through all later layers |
| IntervalSituations.RetriesExactly | crates/icloud-tracking/src/interval.rs:103-114 | The retry table: steps of two failures up to the third, then of four |
| IntervalSituations.DistanceExactly | crates/icloud-tracking/src/interval.rs:53-99 | The wait for every distance: the fixed steps, the nearest even number of minutes for half the miles from 40 km on, and an hour beyond 150 km |
| IntervalSituations.BaseExactly | crates/icloud-tracking/src/interval.rs:203-284 | For each reason the exact situation in which it is the base choice, and its seconds |
| IntervalSituations.DecidedExactly | crates/icloud-tracking/src/interval.rs:197-342 | A decision is made exactly for contexts in range, and is the base choice doubled, limited, overridden, cut short and put into fives exactly when the layers say so |
| Scheduler.MaxErrorsBounds | src/runtime.rs:155-161 | The merged error count bounds every listed device's and is attained by one when positive |
| Scheduler.EarliestBounds | src/runtime.rs:1212-1217 | The earliest deadline is a listed device's and no listed device has an earlier one |
| Runtime.TrackingRuntime.constructor | src/runtime.rs:110-128 | A scheduler starts with no accounts and the loaded state |
| Runtime.TrackingRuntime.RegisterAccount | src/runtime.rs:130-195 | Registering computes the specified account, entry and device states from what was persisted |
| Runtime.TrackingRuntime.CollectDue | src/runtime.rs:478-494 | Exactly the due accounts, in order |
| Runtime.TrackingRuntime.PenalizeAccount | src/runtime.rs:515-543 | The failure branch changes the account, its entry and its devices as specified |
| Runtime.TrackingRuntime.VisitTracks | src/runtime.rs:1062-1142 | The loop over tracked zones gives their deadlines and the shortest wait, and stops at a zone that cannot be decided |
| Runtime.TrackingRuntime.RefreshSnapshots | src/runtime.rs:655-1171 | The loop over snapshots refreshes the devices in turn and stops at the first failure |
| Runtime.TrackingRuntime.FinishAccount | src/runtime.rs:1197-1227 | Settling an account after a successful refresh: its devices, its own list, errors and date, and its entry |
| Runtime.TrackingRuntime.SettleDevices | src/runtime.rs:1203-1210 | A device of the account with a deadline keeps it, one without gets the default, errors are forgotten, and no other device changes |
| Runtime.TrackingRuntime.RunTick | src/runtime.rs:478-565 | A tick polls the due accounts in turn, each by its provider's answer, and succeeds and saves exactly when every answer is usable and the store accepts |
| Runtime.TrackingRuntime.Pause | src/runtime.rs:216-233 | Pausing one device or all sets that flag and nothing else, saved only if announced and accepted by the store, with the error of an unknown device, the sink or the store |
| Runtime.TrackingRuntime.Resume | src/runtime.rs:240-261 | Resuming one device or all clears the flag and makes them due now, likewise |
| Runtime.TrackingRuntime.Schedule | src/runtime.rs:268-284 | Setting a device's deadline, likewise |
| Runtime.TrackingRuntime.Locate | src/runtime.rs:291-314 | An explicit request makes an account, its devices and its entry due now, likewise, with the error of an unknown account |
| Runtime.TrackingRuntime.ApplyExternalUpdate | src/runtime.rs:387-409 | An accepted external update refreshes one device and brings its companions forward after a zone exit; when it succeeds |
| Runtime.TrackingRuntime.BringForward | src/runtime.rs:1174-1196 | Unpaused companions due later than two minutes from now, and no others, are brought forward with their tracks |
| SchedulerBackoff.EveryPollWaitsItsTurn | src/runtime.rs:478-614 | In every run from any loaded state, no account is polled before the retry interval of its consecutive failures has passed, unless it was located on request since |
| SchedulerBackoff.FailureSchedulesRetry | src/runtime.rs:515-543 | A failing account is due again exactly from the retry time of its failures in a row on; its entry and devices get that time and count, and keep everything else |
| SchedulerIsolation.FailureIsolated | src/runtime.rs:515-543 | A failure changes no other account, entry or device, nor whether an account sharing no device is due |
| SchedulerIsolation.TickPollsDueOnce | src/runtime.rs:478-559 | A tick polls only accounts due when it began, each at most once and in order, and reaches a due account exactly when every due account before it got a usable answer |
| SchedulerIsolation.TickCompletesExactly | src/runtime.rs:478-559 | Polling gets to the end exactly when every due account's answer is usable |
| SchedulerIsolation.ExternalCompletesExactly | src/runtime.rs:1167-1196 | An external update gets to its end exactly when its device is refreshable and new deadlines of companions, if there are any, can be announced |
| SchedulerIsolation.SavesExactly | src/runtime.rs:561-565 | After any operation the store holds the new state exactly when the account or device was known, every answer usable, and the sink and the store accepted; otherwise what it held before |
| SchedulerIsolation.UnusableAnswerStopsTick | src/runtime.rs:507-513 | When the first due account's answer cannot be used, no other account is polled, no account changes, not even in its error count, nothing is saved, and devices change only as far as the refresh got |
| SchedulerIsolation.StoppedDeviceKept | src/runtime.rs:751-763 | A refresh that stops at a device which cannot be judged leaves that device due when it was |
| SchedulerIsolation.EveryTickStops | src/runtime.rs:507-513 | As long as an account is stuck like that, its devices still unknown or a due one among them never judged, and no account before it is due, no number of ticks polls another account or saves anything |
| SchedulerBackoff.LocateMakesDueExactly | src/runtime.rs:286-314 | A located account is due at once exactly when it is in error, has no devices, or has a device that is not paused |
| SchedulerRequests.PauseAllSilencesExactly | src/runtime.rs:594-614 | With every device paused an account is polled exactly when in error or without devices, at its discovery time |
| SchedulerRequests.ScheduledDueExactly | src/runtime.rs:268-284 | A scheduled deadline makes its account due exactly when it, or another device's, comes within the prefetch window |
| SchedulerRequests.ResumeMakesDueExactly | src/runtime.rs:240-261 | After a known device is resumed its account is due at once exactly when it is not in error or its retry time has come |
| SchedulerRequests.ResumeForgetsPause | src/runtime.rs:216-261 | Pausing and then resuming leaves exactly what resuming alone leaves |
| SchedulerRequests.PausedAccountSleeps | src/runtime.rs:478-614 | Once all its devices are paused, an account that is not in error is not polled in any further sequence of operations, until one of them is resumed or the account is registered anew |
| SchedulerRequests.PausedIsLastRequest | src/runtime.rs:216-261 | In every run a device is paused exactly when the last request that covered it was one to pause |
| SchedulerRequests.RequestsCannotHastenRetry | src/runtime.rs:594-602 | Pause, resume, schedule and external updates change no account, nor when one in error is due |
| SchedulerDeadlines.EarliestIntervalWins | src/runtime.rs:1053-1157 | Online, the new deadline is the earliest of those decided for the base zone and for each other tracked zone with a known distance, a positive multiple of five seconds away; each tracked zone gets the deadline decided for it, the closest one that of the base zone |
| SchedulerDeadlines.OfflineTogether | src/runtime.rs:1143-1166 | Offline, the wait is 3, 5, 30 or 60 minutes by the location's age alone and every tracked zone gets the device's deadline |
| SchedulerDeadlines.RefreshKeepsRest | src/runtime.rs:1053-1171 | When a refresh succeeds; a paused device keeps its deadlines, one whose intervals cannot all be decided its own, and nothing but deadlines and tracks changes |
| SchedulerDeadlines.UndecidedZoneStops | src/runtime.rs:1062-1142 | A zone for which nothing can be decided ends a refresh: the zones before it have their new deadlines, it and the later ones what they had, and the device its own deadline |
| SchedulerDeadlines.RefreshesAreIndependent | src/runtime.rs:655-1171 | With distinct ids each device ends as a refresh of its own snapshot leaves it and no other device changes |
| SchedulerDeadlines.ZoneExitHastensCompanions | src/runtime.rs:1174-1196 | An external update moves no other device's deadline or tracks, except that after a zone exit every unpaused device of the source's group is due within two minutes, with its tracks, or earlier if it already was |
| SchedulerDeadlines.RemembersEarliest | src/runtime.rs:1197-1227 | After a successful poll every known device of the account has a deadline, and the account remembers the earliest, which one of them attains |
| SchedulerDeadlines.DueWithFirstDevice | src/runtime.rs:594-614 | After a successful poll the account is due exactly when the earliest deadline of its devices that are not paused comes within the prefetch window, never before the deadline it remembers does |
| SchedulerOutcomes.PollDecides | src/runtime.rs:655-1227 | After a successful poll every device answered for has the deadlines decided for it, or the ones it had if paused, and no errors; every other device keeps its own, except that the account's get a default one if they have none; and every device is in the group found for it or in none |
| SchedulerOutcomes.PollRemembersEarliest | src/runtime.rs:1197-1227 | After a successful poll the account lists exactly the devices it is configured with, or else those answered for, has no errors and remembers the earliest of their deadlines, as does its entry |
| SchedulerOutcomes.TickDecides | src/runtime.rs:478-559 | The same at the end of a whole tick, for a device that only one due account has to do with, when that account is reached and its answer usable |
| SchedulerOutcomes.TickRegroups | src/runtime.rs:1172 | After a tick every device is in the group that the last successful poll found for it, or in none |
| SchedulerOutcomes.ExternalRegroups | src/runtime.rs:1172 | The same after an external update that gets through |
| SchedulerOutcomes.ExternalStops | src/runtime.rs:1167-1172 | An external update that does not get through changes its own device as far as its refresh got, and nothing else |
| SchedulerOutcomes.FoundTogetherLeaveTogether | src/runtime.rs:1172-1196 | When a tick has found groups and one device is then reported to leave a zone, exactly the unpaused devices found together with it are due within two minutes, with their tracks |
| SchedulerOutcomes.RelevantConcat | src/runtime.rs:501-507 | Filtering an answer by the configured devices keeps the order of the snapshots |
| SchedulerRestart.ReachableSound | src/runtime.rs:130-195 | Starting from nothing with devices owned by one account each, the durable entries mirror the accounts, known devices have states, and no device's error count exceeds its account's, after every sequence of operations |
| SchedulerRestart.RegisteringReads | src/runtime.rs:130-195 | The account read: the most errors of its entry and devices, the date of its entry or in error the first deadline of its devices; blank states for new devices; and nothing else changed |
| SchedulerRestart.RegistersAgainExactly | src/runtime.rs:130-195 | Registering a mirrored account again gives it back exactly when no device has more errors than it and an account in error knows when it is due |
| SchedulerRestart.ReachableKnown | src/runtime.rs:130-195 | Whatever was loaded, after every sequence of operations the entries mirror the accounts and every account's devices have states |
| SchedulerRestart.RestartsExactly | src/runtime.rs:130-195 | Restarting from a saved state rebuilds all accounts exactly when each of them reads back, in whatever order they are registered, and never changes a device |
| SchedulerRestart.ReachableRestartsExactly | src/runtime.rs:130-195 | The same in every reachable state that is saved, with the same accounts due at every time |
| SchedulerRestart.RestartIsExact | src/runtime.rs:130-195 | With devices owned by one account each, restarting from a saved state, in any order of registration, rebuilds the same accounts and state and so the same due accounts at every time |
| SchedulerRecovery.TickSafeExactly | src/runtime.rs:478-565 | If a restart was safe before a tick, it is after it exactly when every due account's answer was usable and the store accepted, or no account the tick reached answered with a failure; the one direction always, the other when no due account's saved entry is in error with a later date |
| SchedulerRecovery.CarefulLivesAreSafe | src/runtime.rs:110-195 | Over all the lives of a process, no account is polled before the retry interval of its consecutive failures has passed, unless located since, as long as every tick that reaches a failure gets to its end and is saved; nor would one be after another restart |
| SchedulerRecovery.BackoffOutlivesRestarts | src/runtime.rs:110-195 | The same backoff holds over all lives in which no restart comes between an unsaved tick that reached a failure and the next save |
| SchedulerRecovery.SafeThroughRestartsExactly | src/runtime.rs:110-195 | With ticks in time order and location requests saved, a restart is safe at every moment of all these lives exactly when every tick that reaches a failure gets to its end and is saved |
| SchedulerRecovery.SavedEntriesSuffice | src/runtime.rs:561-565 | A restart is safe when the saved entries are the current ones |
| SchedulerRecovery.WaitSurvivesExactly | src/runtime.rs:130-195 | An account registered after a restart is not due before its wait is over exactly when what was saved keeps it waiting: in error, the date of its entry, or of its devices if it has none; otherwise every device saved as paused or with a later deadline |
| SchedulerExamples.NegativeAccuracyStopsTicks | src/runtime.rs:507-513 | Two accounts from nothing: ticks at any times in which the first answers with a negative accuracy never poll the second, though it is always due, and save nothing |
| SchedulerExamples.LocatedNeverDue | src/runtime.rs:286-314 | Three operations from nothing after which a located account is never due |
| SchedulerExamples.PausedYetDue | src/runtime.rs:600-602 | Three operations from nothing after which an account is due although all its devices are paused |
| SchedulerExamples.ResumedNotDue | src/runtime.rs:235-261 | Three operations from nothing after which an account whose only device was just resumed is not due |
| SchedulerExamples.SharedDeviceBreaksRestart | src/runtime.rs:155-161 | Four operations from nothing, the last of them saved, after which two accounts share a device and restarting makes one of them due later than it was |
| SchedulerExamples.UnannouncedFailureForgotten | src/runtime.rs:552-557 | A failure that is not announced, a restart, and a second poll at the very time of the failure |
| Naming.AssignUniqueNames | crates/icloud-findmy/src/model.rs:245-254 | The in-place loop terminates, keeps the plain names, and gives each device its name plus the fewest dots not taken by an earlier device |
| Naming.UniqueNamesDiffer | crates/icloud-findmy/src/model.rs:245-254 | No two devices get the same unique name |
| Naming.UniqueNamesDetermined | crates/icloud-findmy/src/model.rs:245-254 | The plain names in order determine the unique names |
| Naming.PlainNamesKeptExactly | crates/icloud-findmy/src/model.rs:245-254 | Every device keeps its plain name exactly when the plain names were distinct |
| Waze.WazeAvailability.RecordFailure | crates/icloud-waze/src/lib.rs:382-398 | The gate after a failure, with its pauses and the final closing |
| Waze.WazeAvailability.RecordSuccess | crates/icloud-waze/src/lib.rs:400-403 | The gate after a success |
| Waze.WazeAvailability.SetManualPause | crates/icloud-waze/src/lib.rs:405-407 | Opening or closing the gate by hand keeps the count and the timed pause |
| Waze.WazeAvailability.RunFetch | crates/icloud-waze/src/lib.rs:185-266 | A fetch sends nothing when paused or out of range, and otherwise makes up to three attempts and records one outcome |
| Waze.GateCountsFailures | crates/icloud-waze/src/lib.rs:381-412 | With sequential fetches the error count is the number of failures since the last success, at most forty, and those failures respected every pause |
| Waze.FortyFirstFailure | crates/icloud-waze/src/lib.rs:381-412 | The forty-first failure in a row comes at least 600 + 1800 + 3600 seconds after the first began, and closes the gate |
| Waze.SentExactly | crates/icloud-waze/src/lib.rs:185-266 | A fetch in range is sent exactly when the gate was not shut by hand or for good and the last timed pause is over, and its outcome is that of the first attempt with an envelope |
| Waze.ClosedUntilReopened | crates/icloud-waze/src/lib.rs:381-412 | A closed gate stays closed and sends nothing until it is reopened by hand |

## Left out

- Srp.SecretsAgree: modular exponentiation is specified as a power reduced once; the big-integer library's algorithm is not modelled.
- Srp.HonestServerAccepts: SHA-256, PBKDF2 and base64 are parameters, of which only the round trip of base64 is assumed; the randomness of the private key and errors of the random source are not modelled.
- StationaryRuns.ReachableConsistent: stated for fewer than 2^64 operations, before the zone counter could saturate.
- StationaryRuns.ActiveZonesSeparated: stated for operations without explicit moves, since moves break it.
- SchedulerRestart.ReachableSound: devices belong to one account each and no instant is the calendar library's earliest, which stands for "never set".
- SchedulerDeadlines.EarliestIntervalWins: tracked zones whose distance is unknown keep their older deadlines; a wait beyond the signed 64-bit range is clamped, and the calendar library's overflow panics are not modelled.
- Runtime.TrackingRuntime.RefreshSnapshots: whether a location can be judged is decided; the zone selection, the stationary zones, the route lookup, the direction of travel and the interval contexts that follow from the location are inputs of the step, with one flag for a failure among them.
- Runtime.TrackingRuntime.VisitTracks: a device's tracks are its deadlines only; their direction histories and distances are not kept, and the interval contexts are inputs.
- Runtime.TrackingRuntime.RunTick: the groups found after a refresh are an input of the scheduler's step; NearbyAssignment proves what that part of the code computes and that it does not fail. Which of the errors a tick returns, and the time of the last save, are not modelled.
- Runtime.TrackingRuntime.ApplyExternalUpdate: begins after the arbitration, which Quality models; the health record of the source and the decision returned are left out, and so is which of the errors it returns.
- SchedulerRestart.RestartsExactly: an account registered twice is covered only when no entry holds the "never set" instant, which the second registration would read differently.
- SchedulerRecovery.SafeThroughRestartsExactly: that care is necessary is stated for lives whose ticks come in time order and whose location requests are announced and saved, since otherwise what was saved may be ahead of what is in memory; that it is enough is stated for all lives.
- Runtime.TrackingRuntime.Locate: the code looks devices up in an ordered map; the model loops over the ids in ascending order.
- Zones.SelectZone: the library's sort is specified as an insertion sort; its algorithm is not modelled.
- Floating point: rounding, infinities and NaN are not modelled; the checks for finite values therefore reduce to their sign checks.
- The great-circle distance and the China coordinate transforms: floating-point trigonometry behind an abstract distance.
- Strings compare by code point; no Unicode normalisation or case folding, and whether a model name contains "watch" is an input.
- The health record and request throttle of external sources, and the validation of external triggers and battery levels: straight-line checks.
- The retry loop's HTTP requests, the envelope parsing and the summing of route segments in the route service, and its history database.
- The login flow, session archives, provider plumbing, SQLite, TOML configuration, the command line, and file permissions and atomic renames.
- Asynchronous scheduling, locks, real clocks and the tick timer: an operation is one step with its time as an argument.
- Device names, models, raw payloads, time-zone offsets and snapshots for display: copied without decisions.
