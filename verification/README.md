# labpower power scheduler: a verified model

labpower decides when a Proxmox host and its guests run. This project models its schedule
calculus, the tick that drives host and guests, the override table, the weather monitor, the
lightning sensor's buffer, the timeline and the dependency ordering, and proves what each of
them keeps over every input or every run.

How it is laid out:

- `Signals.dfy`, `Schedule.dfy`: on/off signals and their boundaries; windows, `IsOn`, `Crossings`.
- `Coverage.dfy`, `HostActions.dfy`: what holds with 24-hour days: the coverage check and the
  look-ahead behind "off until the schedule next turns on".
- `Overrides.dfy`: the override table and its queries. `Timeline.dfy`: the track of one row.
- `Graph.dfy`: guests, the topological order and the cycle finder.
- `Engine.dfy`: one tick as a function of the store and of all it observes. `EngineLoop.dfy`: the
  engine as an object whose methods do the same step by step, each proved to end exactly where its
  function says, on success and on every failure.
- `EngineFrames.dfy` (what each step leaves alone), `EngineDecides.dfy` (what a tick does, said of
  configuration, rows, level, tasks and store alone), `EngineGuests.dfy`, `EnginePasses.dfy`,
  `EngineRetries.dfy`, `EngineWake.dfy`, `EngineWakeExact.dfy`, `EngineSafety.dfy`, `EngineShutdown.dfy`, `EngineGrace.dfy`, `EngineDryRun.dfy`:
  theorems over ticks and runs. `EngineWitnesses.dfy`: concrete runs behind the list below.
- `Weather.dfy`, `Sensor.dfy`: the threat monitor and the detection buffer it asks.

Conventions. Instants are whole seconds, the precision the store keeps. A time zone is the instant
of every local midnight and the day every instant falls on; days may last 23 or 25 hours unless a
statement asks for `Uniform`. A tick takes an `Env`: the clock, the weather level, reachability, the
guest listing, the override rows, the active tasks, and a function saying which of its fallible
operations succeed. A store error or a refused call is one failing operation, a crash is every
operation from some point on failing; a run is any sequence of such ticks.

## What the code does where one might expect otherwise

- `IsOn` looks back one day only. For a given window that is right at every instant exactly when each
  of its instances ends within the day after the one it starts on (`LookBackExact`);
  `ShortDayEscapesLookBack` gives a window on the eve of a 23-hour day that the code reports off while
  it is on.
- An override made since the last completed pass is acted on exactly when its stamp is later than
  `last_tick` or a boundary was crossed as well (`NewestRowTriggers`), and so is a cancellation that
  leaves no row active (`CancelledRowTriggers`). One stamped in the very second of `last_tick`, after that pass read the
  table, is not acted on (`SameSecondOverrideIsMissed`, `SameSecondCancelIsMissed`): both ends of the
  next window name the same row, or no row.
- A pass that is triggered for a guest but does not find it listed completes all the same, and the
  trigger is lost (`UnlistedGuestLosesTrigger`).
- A pass leaves a guest that is neither triggered nor paused as it finds it (`TargetReachedExactly`), so
  guests stopped by a forced host shutdown stay stopped after the host returns until a boundary or an
  override change (`ShutdownLeavesGuestStopped`).
- `internal/engine/engine.go:252-254` keeps `last_tick` so that a failed pass is retried from the same
  window. A guest that the failed pass already switched for an override is not switched back when the
  override ends before the retry (`EndedOverrideLeavesGuestRunning`); `RetriedExactly` says when the
  retry does bring a guest to its target.
- `internal/store/overrides.go:52-54` promises that ignore_weather never shadows an on/off/pause row.
  The queries restricted to power actions keep that (`IgnoreWeatherNeverShadows`); the query over all
  actions, made for guests, keeps it exactly when no newer ignore_weather row of that target is active
  (`AllActionsQueryShadowed`, `IgnoreWeatherHidesOff`). Only the host is given such rows.
- Only the 50 newest matching rows are looked at: an older row that is still active is then ignored
  (`EffectiveExact`, `LimitCanHide`).
- "Off until the schedule next turns on" never expires for a schedule that is always on
  (`AlwaysOnNeverTurnsOn`), just as for one that is always off (`OffUntilScheduleForever`).
- `internal/config/coverage.go:32-33` says that coverage does not depend on the week checked. It does
  when days last 23 hours: `CoverageDependsOnWeek` gives schedules the check accepts and an instant at
  which the guest's is on and the host's is off. Windows nested on the clock are covered in every zone
  (`NestedIsCovered`).
- When the level falls from Danger to Warning and no Warning came before, the countdown starts only
  then, so the engine wakes the host it had forced off (`EasingDangerWakesHost`); `WokenAtWarning` says
  exactly when it wakes a host at Warning or above.
- `all_clear_after` is configured and carried into the monitor (`internal/weather/weather.go:128`), but
  no evaluation consults it: for any sources, the evaluation after a Danger is Normal exactly when what
  it gathers is all clear, however soon it comes (`LevelFallsAtOnce`, `OneStrikeFallsAtOnce`).
- `shutdownHost` clears the Danger grace mark before it stops the guests, so when a guest fails to
  stop while tasks are active the grace period starts again: `PastGraceTold` and
  `FailedStopRestartsGrace` say exactly when, `RefusedStopRestartsGrace` shows such a run.
- `clearWakeState` removes the number of attempts, the time of the last packet and the failure flag one
  by one after `host_wake_ok` was recorded. When one of the first two removals fails, and only then,
  the next tick that keeps the host on records the success again (`RecordedAgainExactly`,
  `SuccessRecordedTwice`).
- A dry-run tick records `host_wake_ok` as if it were live (`internal/engine/host.go:270`); all its other
  events carry the dry_run flag (`EventsAreFlagged`).
- The timeline shows on/off/pause rows only, so a guest whose row is hidden from the engine by a newer
  ignore_weather row is shown by that row while the engine follows its schedule (`TrackShowsGuestView`
  says when the two look the same).

## Model

| member | source | states |
|---|---|---|
| Schedules.InstancesCovering | internal/schedule/schedule.go:168-184 | the loop lists exactly one instance per window and applicable day from the day before `from` through the day of `upto` |
| Schedules.ComputeIsOn | internal/schedule/schedule.go:187-194 | the scan of those instances answers IsOn: covered by an instance starting yesterday or today |
| Schedules.LookBackSuffices | internal/schedule/schedule.go:164-194 | IsOn equals "some window of some day, of all days, covers t" when every instance of a wrapping window ends within the day after the one it starts on |
| Schedules.OnByMidnights | internal/schedule/schedule.go:124-152 | IsOn counted from midnights: some window of a weekday it names has t between its on time and its off time, the latter from the next midnight when it is not later |
| Schedules.LookBackExact | internal/schedule/schedule.go:139-173 | for any one window, the one-day look-back is right at every instant if and only if each of its instances ends within the next day |
| Schedules.ShortDayEscapesLookBack | internal/schedule/schedule.go:172 | a concrete 23-hour day on which a window is on and IsOn says off |
| Schedules.Crossings | internal/schedule/schedule.go:207-240 | collecting edges in a map, sorting them and re-evaluating IsOn computes CrossingsOf |
| Schedules.CrossingsAreChanges | internal/schedule/schedule.go:207-240 | the result is exactly the list of state changes a scan of every second finds |
| Schedules.CrossingsDescribe | internal/schedule/schedule.go:203-240 | boundaries strictly increase and alternate, decode to the state at every instant of the range, and no other alternating list does |
| Schedules.CrossingsSplit | internal/schedule/schedule.go:207-240 | Crossings(a, c) is Crossings(a, b) followed by Crossings(b, c) |
| Schedules.NoCrossingMeansConstant | internal/schedule/schedule.go:203-240 | no boundary in (from, upto] if and only if the state is the same throughout |
| Coverage.WeeklyPeriodic | internal/schedule/schedule.go:139-152 | with 24-hour days a schedule repeats every week, forwards and backwards |
| Coverage.IsOnByClock | internal/schedule/schedule.go:124-152 | with 24-hour days IsOn is the clock's answer: the offset of t in its week, Monday first, lies in some window of some weekday, or does so a week later |
| Coverage.FirstGap | internal/config/coverage.go:39-47 | the minute scan of a week returns its first sampled gap, or None when there is none |
| Coverage.WeekScanDecides | internal/config/coverage.go:30-47 | the 10080 samples find no gap if and only if inner-on implies outer-on at every instant of every week |
| Coverage.ReportedGapIsFirst | internal/config/coverage.go:37-47 | the reported minute is the first instant of the week, sampled or not, with a gap |
| Coverage.ValidateCoverage | internal/config/coverage.go:56-83 | with 24-hour days, no error if and only if the schedule of every guest that is not always on and has one lies inside the host's at every instant; each error names a guest and a real gap |
| Coverage.CoverageDependsOnWeek | internal/config/coverage.go:30-47 | schedules accepted in every zone with 24-hour days, and an instant of a week with a 23-hour day at which the inner one is on and the outer one off |
| Coverage.NestedIsCovered | internal/config/coverage.go:30-47 | in any zone, windows that each lie inside one of the outer schedule on the clock give inclusion at every instant |
| EngineGuests.AcceptedGuestsFollowHost | internal/engine/guests.go:14-34 | with an accepted configuration and no guest override, guests never want the host on outside its own configured schedule |
| HostActions.NextHostOn | internal/web/handlers_actions.go:131-139 | the loop returns the first turn-on among the boundaries of the next 8 days |
| HostActions.LookAheadComplete | internal/web/handlers_actions.go:129-139 | nil if and only if the schedule never again goes from off to on, else the least such instant, at which it is on |
| HostActions.OffUntilScheduleForever | internal/web/handlers_actions.go:207-211 | the "until schedule" override has no expiry if and only if the schedule never changes state |
| HostActions.AlwaysOnNeverTurnsOn | internal/web/handlers_actions.go:129-139 | a concrete schedule that in every zone is on at every instant and has no next turn-on |
| HostActions.HostShutdownUntil | internal/web/handlers_actions.go:200-229 | the expiry chosen per form value; with "schedule" the off row is active exactly until the next turn-on, at which the schedule is on |
| Overrides.OverrideTable.CreateOverride | internal/store/overrides.go:12-21 | appends one row with the next id and keeps every instant before its stamp as it was |
| Overrides.OverrideTable.CancelOverride | internal/store/overrides.go:25-40 | sets cancelledAt of exactly the uncancelled row with that id, or reports failure and changes nothing |
| Overrides.OverrideTable.EffectiveOf | internal/store/overrides.go:59-93 | the row loop returns the first active row of the limited, ordered query |
| Overrides.EffectiveExact | internal/store/overrides.go:42-93 | the query answers o if and only if o is the newest active matching row and fewer than 50 matching rows are newer |
| Overrides.EffectiveIsNewest | internal/store/overrides.go:42-93 | the answer is in force, and any other row in force was created earlier, or in the same second and inserted earlier; up to 50 matching rows, no answer means no row in force |
| Overrides.LimitCanHide | internal/store/overrides.go:71-73 | a concrete table in which the row limit hides the governing row |
| Overrides.EffectiveNone | internal/store/overrides.go:80-92 | up to 50 matching rows, the answer is nil if and only if no matching row is active |
| Overrides.RangeQueryAgrees | internal/store/overrides.go:95-120 | for t in [from, end) the first active on/off/pause row of the range query is the row the per-instant query returns |
| Overrides.IgnoreWeatherNeverShadows | internal/store/overrides.go:52-55 | tables with the same on/off/pause rows give the same answers, whatever ignore_weather rows they hold |
| Overrides.AllActionsQueryShadowed | internal/store/overrides.go:48-55 | up to 50 matching rows, the query over all actions answers the governing on/off/pause row if and only if no active ignore_weather row of the target is newer |
| Overrides.IgnoreWeatherHidesOff | internal/store/overrides.go:48-55 | a concrete table of two rows in which it answers ignore_weather instead of the governing "off" |
| Overrides.EvolvesTransitive | internal/store/overrides.go:11-40 | any sequence of later creations and cancellations is one evolution of the table after the same stamp |
| Overrides.PastIsStable | internal/store/overrides.go:42-50 | changes stamped after an instant never change which row was in effect at it |
| Timeline.ComputeStateAt | internal/web/timeline.go:176-192 | the loop over the preloaded rows shows override, off or schedule as the first active power row and IsOn say |
| Timeline.RowColours | internal/web/timeline.go:163-192 | a newest on or pause row in force shows as an override, an off row as off, and without one the row shows its schedule |
| Timeline.TrackShowsEngineView | internal/web/timeline.go:163-192 | the sampled state is what the engine's query for the host, over on/off/pause rows, decides |
| Timeline.TrackShowsGuestView | internal/web/timeline.go:163-192 | the sampled state is what the engine's query for a guest, over all rows, decides if and only if no newer ignore_weather row hides the governing row, or that row and the schedule look the same |
| Timeline.Track | internal/web/timeline.go:165-222 | segments are ordered, disjoint, in range, touching ones differ, a sample lies in a segment of class c exactly when its state is c, and on-time is their total length |
| Ordering.TopologicalOrder | internal/engine/guests.go:200-248 | terminates and lists each guest once with known dependencies first, or fails; with unique names it fails if and only if some guests close a cycle, each naming the next as a dependency, and every guest stands after all guests it names |
| Ordering.FindDependencyCycle | internal/config/config.go:540-583 | returns nothing if and only if the same graph is acyclic, else a walk that ends in a guest it already passed |
| Ordering.CyclicMeans | internal/engine/guests.go:200-232 | with unique names the graph is cyclic if and only if some guests close a cycle of dependencies |
| Ordering.TopologicalMeans | internal/engine/guests.go:200-232 | with unique names a topological order has every guest after all guests it depends on |
| Ordering.Sorter.Visit | internal/engine/guests.go:214-232 | one depth-first visit keeps the colours, path and order consistent, or has found a cycle |
| Ordering.CycleFinder.Visit | internal/config/config.go:551-568 | one visit keeps them consistent, or returns a walk into a guest on the path |
| EngineLoop.New | internal/engine/engine.go:144-156 | an engine is built if and only if, names being unique, no guests close a cycle of dependencies; its order has each guest once, after all it depends on |
| EngineLoop.Engine.Tick | internal/engine/engine.go:164-259 | the step-by-step tick ends in the state and with the outcome of NextTick, whatever fails |
| EngineLoop.Engine.Plan | internal/engine/guests.go:52-106 | the loop over guests fills starts and stops as PlanFrom says, or fails where it fails |
| EngineLoop.Engine.Execute | internal/engine/guests.go:142-175 | dry-run records only; live calls, waits for the task and records, failing at the first failure |
| EngineLoop.Engine.PursueWake | internal/engine/host.go:183-248 | reads, sends and writes of one pursuit, in order, stopping at any failure |
| EngineLoop.Engine.ShutdownHost | internal/engine/host.go:288-362 | task check, flag and mark removal, guest stops, node call, in order, stopping at any failure |
| EngineLoop.Engine.WeatherSafety | internal/engine/host.go:102-160 | clears the marks below Warning, honours ignore_weather, forces off at Danger or past the countdown |
| EngineGuests.PassCalls | internal/engine/engine.go:230-250 | a completed live pass calls the planned stops in reverse dependency order, then the planned starts in dependency order, all tasks OK |
| EngineGuests.PassOutcome | internal/engine/guests.go:45-106 | after a completed pass each managed guest is in its target state if triggered and unpaused, otherwise as it was found |
| EngineGuests.TargetReachedExactly | internal/engine/guests.go:45-106 | an unpaused guest ends in its target state if and only if it was triggered or already there |
| EngineGuests.GuestPriority | internal/engine/guests.go:108-125 | on, off and pause rows decide a guest's target by the newest active one; with an ignore_weather row or none it is whether the configuration has the guest's schedule and that is on |
| EnginePasses.PassIsAudited | internal/engine/guests.go:142-181 | a completed live pass leaves exactly one audit event per guest switched, in order, of the matching kind, credited to the creator of the row in effect or to the schedule |
| EnginePasses.PassInOrder | internal/engine/engine.go:230-250 | a completed live pass makes all its stops before its starts, stops no guest before one that depends on it and starts none before one it depends on |
| EngineGuests.TriggeredExactly | internal/engine/guests.go:67-78 | a guest is triggered if and only if there was no last tick, its configured schedule changes somewhere in the window, or another row or no row is in effect at its end than at its beginning |
| EngineGuests.UntriggeredTargetStands | internal/engine/guests.go:67-78 | without a boundary and with the same effective row, the target is what it was at last_tick |
| EngineGuests.EdgeAgreesWithLevel | internal/engine/guests.go:45-134 | over every orderly live run from an empty store, after each completed pass every managed unpaused guest was last known in its target state, as a level-triggered engine would have it |
| EngineGuests.SwitchedByHandIsLeftAlone | internal/engine/guests.go:47-51 | over any number of completed passes without a trigger for a guest, no call is made for it |
| EngineGuests.NewestRowTriggers | internal/engine/guests.go:67-78 | for any rows and schedule, a guest's newest row, active now, triggers the pass if and only if it is stamped after last_tick or a boundary was crossed |
| EngineGuests.CancelledRowTriggers | internal/engine/guests.go:67-78 | a guest's newest row, cancelled by now and the only one that could be active, triggers the pass if and only if its cancellation is stamped after last_tick or a boundary was crossed |
| EngineGuests.SameSecondOverrideIsMissed | internal/engine/guests.go:72-76 | the failing case shown: an "on" stamped in the second of last_tick triggers nothing although the guest should be on |
| EngineGuests.SameSecondCancelIsMissed | internal/engine/guests.go:72-76 | the same of an "on" cancelled in that second: the target is off, the pass at that second saw it on, and nothing triggers |
| EngineRetries.CalmTickCompletes | internal/engine/engine.go:164-259 | below Warning on a reachable host, a tick in which nothing fails completes its guest pass if and only if schedules, guests and overrides do not want the host off |
| EngineRetries.RetriedExactly | internal/engine/engine.go:250-258 | a guest only the engine switches, left in its target by one completed pass, is in its target after the next if and only if it was triggered or the calls in between had not moved it |
| EngineRetries.OwnRunIsOrderly | internal/engine/engine.go:212-258 | runs in which only the engine switches guests, and no guest with a successful call since the last completed pass goes untriggered, are orderly, so edges agree with levels over them |
| EngineWitnesses.ShutdownLeavesGuestStopped | internal/engine/host.go:329-341 | a concrete run: Danger stops a guest and the host, the next pass completes, and the guest stays stopped although it should be on |
| EngineWitnesses.EndedOverrideLeavesGuestRunning | internal/engine/engine.go:250-254 | a concrete run: a failed pass starts a guest, the override ends before the retry, and the guest keeps running although it should be off |
| EngineWitnesses.UnlistedGuestLosesTrigger | internal/engine/guests.go:88-92 | a concrete run: a guest not listed at the pass it is triggered in keeps running at the next although it should be off |
| EngineWitnesses.ScheduleStartsGuest | internal/engine/guests.go:52-106 | a concrete run: a guest on daily from 8:00 is left off by the pass at 7:00 and started by the one at 9:00 |
| EngineGuests.LastTickMoves | internal/engine/engine.go:212-258 | last_tick becomes now on a completed guest pass and is otherwise unchanged, whatever fails |
| EngineGuests.WindowsPartitionTime | internal/engine/engine.go:212-258 | over every run with a forward clock, the boundaries in the windows of completed passes are exactly those between the first and the last last_tick |
| EngineWake.EpisodeSendsBounded | internal/engine/host.go:181-248 | in a wake episode at most max(1, retries) packets are sent plus one per tick that failed between sending a packet and storing it |
| EngineWake.EpisodeSendsSpaced | internal/engine/host.go:212-218 | with no such tick, packets of an episode are at least the wake timeout apart |
| EngineWake.EpisodeGivesUpOnce | internal/engine/host.go:184-190 | at most one host_wake_failed per episode |
| EngineWake.TickWake | internal/engine/host.go:48-93 | every tick either leaves the wake record alone but for removing keys, or is one pursuit |
| EngineWake.SuccessesAccounted | internal/engine/host.go:258-280 | over any run, whatever fails, the successes recorded are one per episode begun except those going on or dropped, plus one per tick that failed between recording and clearing |
| EngineWakeExact.SuccessExactly | internal/engine/host.go:258-280 | for every tick, a success is recorded if and only if a wake is in progress, the tick decides to keep a reachable host on and its next three operations succeed; the last-sent time then survives if and only if the fourth or the fifth fails |
| EngineWakeExact.RecordedAgainExactly | internal/engine/host.go:258-280 | after such a tick, the next failure-free tick that wants the reachable host on records the success again if and only if the fourth or the fifth operation failed |
| EngineWitnesses.SuccessRecordedTwice | internal/engine/host.go:258-280 | a concrete run of two ticks that records one wake as two successes |
| EngineWakeExact.OffHostTick | internal/engine/host.go:183-248 | a failure-free tick that finds the host off sends a packet if and only if the host is wanted and one is due, gives up if and only if it is wanted and the last attempt timed out, records exactly that, and forgets a wake in progress when the host is wanted off |
| EngineWakeExact.UnansweredEpisode | internal/engine/host.go:183-248 | a failure-free unanswered episode with ticks a timeout apart sends one packet per tick up to max(1, retries), then gives up once, then stays silent |
| EngineWakeExact.WokenAtWarning | internal/engine/host.go:102-160 | at Warning or above a failure-free live tick wakes an unreachable host if and only if the safeguard is overridden or the Warning countdown is not over, schedules and overrides want it on, and a packet is due |
| EngineWitnesses.EasingDangerWakesHost | internal/engine/host.go:118-129 | a concrete run: Danger shuts the host down, and the next tick at Warning wakes it |
| EngineDecides.SafetyTable | internal/engine/host.go:95-160 | with nothing failing: enforced un-ignored Warning forces off if and only if the stored mark, or now, is a countdown old; Danger forces off and may cut tasks short; an ignored level forces nothing; without enforcement or below Warning nothing is forced and all three marks go |
| EngineDecides.EvalExactly | internal/engine/host.go:102-129 | an evaluation counts as a Warning if and only if the level is an enforced un-ignored Warning, and as calming if and only if it is not enforced or below Warning and the mark is gone |
| EngineDecides.IgnoredExactly | internal/engine/host.go:107-116 | the safeguard is ignored if and only if some ignore_weather row of the host is in force |
| EngineDecides.AnyWantsOnExactly | internal/engine/guests.go:14-34 | with nothing failing, guests want the host on if and only if some managed guest's target is on |
| EngineDecides.PlainWishExactly | internal/engine/host.go:54-68 | the newest on/off/pause row in force decides about the host, else it is wanted on if and only if its configured schedule is on or some managed guest's target is |
| EngineDecides.HostToldExactly | internal/engine/host.go:288-362 | a failure-free live tick on a reachable host tells the node if and only if the safeguard forces it or it is wanted off, and no tasks are active or Danger past the grace may cut them short; every call is recorded, the node is last, and the marks go; else it is only postponed |
| EngineDecides.HostToldByLevel | internal/engine/host.go:48-93 | so below Warning the node is told if and only if the host is wanted off and no tasks are active, and at un-ignored Warning past the countdown if and only if no tasks are active |
| EngineDecides.UnknownTasksStopShutdown | internal/engine/host.go:293-297 | when active tasks cannot be counted the node is never told, and a tick that decides to shut down fails without a call |
| EngineDecides.UntrustedTickDoesNothing | internal/engine/engine.go:164-180 | with an untrusted clock a tick changes nothing |
| EngineWitnesses.WarningShutsDown | internal/engine/host.go:118-129 | a concrete run: the first Warning starts the countdown, and a Warning a countdown later shuts the host down |
| EngineWake.WakeCompletion | internal/engine/host.go:258-280 | a wanted host that answers ends the episode in progress, recording its success and removing the wake keys, unless one of these operations fails |
| EngineSafety.MarkTracksEvals | internal/engine/host.go:102-160 | over every run the stored warning mark is the one its evaluations account for |
| EngineSafety.MarkIsFirstWarning | internal/engine/host.go:118-128 | that mark is the time of the first un-ignored Warning since the last evaluation below Warning |
| EngineSafety.WarningForcesAfterCountdown | internal/engine/host.go:95-129 | an un-ignored Warning forces off if and only if some un-ignored Warning a countdown earlier has not been followed by a lower level |
| EngineSafety.HostPriority | internal/engine/host.go:54-68 | weather safety beats overrides, the newest active on/off/pause row beats schedule and guests |
| EngineShutdown.ForcedShutdownWaitedCountdown | internal/engine/host.go:48-72 | a host shut down at Warning against schedules and overrides waited out the countdown |
| EngineShutdown.BusyHostNeedsGrace | internal/engine/host.go:288-321 | the node is told to shut down in spite of active tasks only at un-ignored enforced Danger with the grace since the stored mark over |
| EngineShutdown.BusyHostWaitedGrace | internal/engine/host.go:288-327 | then some earlier tick postponed for Danger at least the grace ago and the mark stood ever since |
| EngineGrace.ToldExactly | internal/engine/host.go:288-362 | whatever fails, a live tick tells the node if and only if it gets past its reads and writes up to the stops and every guest that must stop does and is recorded; getting there removes the grace mark either way |
| EngineGrace.PastGraceTold | internal/engine/host.go:288-362 | at un-ignored enforced Danger past the grace, nothing failing before the stops, the node is told if and only if every such stop succeeds, and the mark is gone |
| EngineGrace.FailedStopRestartsGrace | internal/engine/host.go:293-341 | after a failed stop, over any later run a busy node is told only a whole new grace after a new postponement, which the next busy Danger tick is |
| EngineWitnesses.RefusedStopRestartsGrace | internal/engine/host.go:325-341 | a concrete run in which a refused guest stop past the grace has the next tick postpone again |
| EngineGrace.GraceStands | internal/engine/host.go:293-321 | within the grace a busy Danger tick makes no call and keeps the mark, whatever fails in it |
| EngineGrace.GraceDecides | internal/engine/host.go:293-321 | over a run with any failures, once a postponement started a grace that still stands, a failure-free Danger tick tells the node if and only if that grace is over or no tasks are active |
| EngineGrace.FirstTickPastGraceShutsDown | internal/engine/host.go:293-321 | while Danger persists on a busy host, ticks within the grace call nothing whatever fails, and the first failure-free one past it shuts the host down |
| EngineShutdown.GuestsStopBeforeHost | internal/engine/host.go:329-362 | the node is told only after every running managed guest stopped with its task OK, in reverse order, and as the last call |
| EngineShutdown.DependentsStopFirst | internal/engine/host.go:282-341 | with the computed order a dependent stops before each running managed guest it depends on |
| EngineShutdown.HostGoesLast | internal/engine/host.go:329-362 | with unique names and the computed order, a tick that tells the node first stopped every running managed guest, each once, with its task OK and before what it depends on, called nothing else, and told the node last |
| EngineDryRun.DryRunMakesNoCall | internal/engine/guests.go:152-155 | a dry-run tick makes no Proxmox or Wake-on-LAN call, whatever it meets |
| EngineDryRun.DryRunMirrorsLive | internal/engine/engine.go:164-259 | from equal stores and observations, with every call succeeding, dry-run and live ticks end with the same outcome, state and events up to the dry_run flag |
| EngineDryRun.EventsAreFlagged | internal/engine/host.go:220-362 | whatever fails, every event a tick records carries the dry_run flag of the mode, except host_wake_ok, which never does |
| Weather.Monitor.Evaluate | internal/weather/weather.go:219-306 | memory and level are what Remembered and LevelOf make of the former memory and the answers: the level the gathered evidence deserves, raised to Danger when a configured source is stale at Warning or above |
| Weather.LevelExactly | internal/weather/weather.go:219-306 | from what each source said: Danger for a strike in the danger radius, a confirmed detection, or any evidence of Warning while a configured source is silent longer than staleAfter; Warning for an unexpired serious thunderstorm warning or a strike in the warning radius; Watch for thunder alone; Normal for none |
| Weather.ConfirmLocal | internal/weather/weather.go:340-359 | the pairwise scan confirms exactly when a danger-radius strike or two close detections do |
| Weather.NearestStrike | internal/weather/weather.go:223-240 | the loop finds the nearest strike, or -1 |
| Weather.NearestDecides | internal/weather/weather.go:277-288 | the nearest strike with its -1 sentinel decides whether any strike is within a radius |
| Weather.MoreEvidenceNeverCalms | internal/weather/weather.go:219-306 | of two evaluations from the same caches and success times, with the same sources answering, the one told more strikes, warnings, detections or thunder never has the lower level |
| Weather.LevelFallsAtOnce | internal/weather/weather.go:219-306 | for any sources and memory, a strike in the danger radius means Danger, and a later evaluation is Normal if and only if it gathers no strike within either radius, no alarm, nothing confirmed and no thunder |
| Weather.OneStrikeFallsAtOnce | internal/weather/weather.go:219-306 | a concrete pair of evaluations that goes from Danger to Normal |
| Weather.OrderNeverMatters | internal/weather/weather.go:223-294 | permuting the evidence never changes the level |
| Weather.ConfirmationIsACount | internal/weather/weather.go:268-275 | with all detections in the window, confirmation is two or more, or one and a danger-radius strike |
| Weather.PrunedBufferConfirms | internal/weather/weather.go:268-275 | fed from the pruned sensor buffer, with the window at most what it retains, confirmation is that count over the full history |
| Weather.FetchesAreSpaced | internal/weather/weather.go:310-334 | successful fetches of a cached source are at least its interval apart |
| Weather.FreshMeansRecentlyFetched | internal/weather/weather.go:259-266 | a source not stale, once it answered, was really fetched less than staleAfter + interval ago, although cache hits refresh its success time; the clock may even go back |
| Weather.Monitor.ForecastIsRecent | internal/weather/weather.go:259-266 | the same of the monitor itself, over any run of evaluations |
| Weather.CacheHoldsLastFetch | internal/weather/weather.go:308-334 | the cache holds the answer and time of the last successful fetch |
| Sensor.Watcher.Record | internal/sensor/as3935/watcher.go:62-73 | appends, drops the outdated front, and keeps the buffer a suffix of the full history |
| Sensor.Watcher.Detections | internal/sensor/as3935/watcher.go:76-86 | lists, in order and as often as recorded, the buffered times not before since, and those of everything ever recorded when since is not before the latest time minus retain |
| Sensor.PrunedAnswersAsHistory | internal/sensor/as3935/watcher.go:62-86 | the pruned buffer answers like the full history, in whatever order times were recorded |
| Sensor.EarlierSinceCanMiss | internal/sensor/as3935/watcher.go:67-72 | one second earlier it may miss a detection |

## Left out

- Sub-second time: the store keeps whole seconds and so does the model; a clock read twice in a tick is one reading.
- The IANA zone database and Go's date normalisation: midnights are given; a midnight that does not exist or a skipped calendar day is not modelled.
- SQLite itself: overrides are a list of rows, state is a map with typed values, so a value that fails to parse does not occur.
- `sort.Strings` on guest names: the orders are proved for any listing of the names.
- Text of errors, notifications and log lines; notifications are best effort and never change a tick.
- `reconcileWeather` and the status kept for the web page: the level enters a tick as an observation.
- Proxmox, Wake-on-LAN, weather and sensor transports: each call succeeds or fails as the environment says; polling a task is one such answer.
- Concurrency between web requests and the engine: a tick and a web action are atomic; between two ticks the rows may be anything, except where `Orderly` says otherwise.
- The haversine distance and the timeline's scaling to 0..1000: distances are given, segments are kept in seconds.
- Web pages, authentication, configuration parsing and the other validators, command line, the development stand-in for Proxmox.
- EngineGuests.EdgeAgreesWithLevel: asks, per completed pass, that each guest it is triggered for is listed, that each other listed guest is as it was last known, and that changes to the table are stamped after last_tick; UnlistedGuestLosesTrigger, RetriedExactly and CancelledRowTriggers say what happens otherwise.
- EngineWake.EpisodeSendsBounded: an episode starts where the attempts key is absent and lasts while no wake key is removed, so a clear that was cut short also ends it.
