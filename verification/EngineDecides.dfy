/** What a tick decides and does when nothing fails, said of the configuration, the rows, the
    level, the tasks and the store alone. */
module EngineDecides {
  import opened Prelude
  import opened Schedules
  import opened Overrides
  import opened Guests
  import opened EngineSpec
  import opened EngineFrames
  import opened EngineSafety
  import opened EngineShutdown
  import opened EngineGuests
  import opened EngineGrace
  import opened EngineWake
  import opened EngineWakeExact
  import Weather

  // ----- the weather safeguard -----

  /** The host's ignore_weather rows decide whether the safeguard is ignored. */
  lemma IgnoredExactly(env: Env)
    requires ValidRows(env.rows) && |Where(Matching(HOST, env.now, {IgnoreWeather}), env.rows)| <= 50
    ensures Ignored(env) <==> exists o :: InForce(env.rows, HOST, env.now, {IgnoreWeather}, o)
  {
    hide EffectiveOverrideOf;
    EffectiveIsNewest(env.rows, HOST, env.now, {IgnoreWeather});
  }

  /** What an evaluation counts as, whatever fails: as Warning exactly at enforced,
      un-ignored Warning; as calming exactly when not enforced or below Warning. */
  lemma EvalExactly(cfg: Config, env: Env, w: World)
    ensures var e, s := EvalAt(cfg, env, w), WeatherSafety(cfg, env, w);
      && (SawWarning(e) <==> cfg.enforce && env.level == Weather.Warning && !Ignored(env) && s.Ok?)
      && (Calmed(e) <==>
            && (!cfg.enforce || env.level == Weather.Normal || env.level == Weather.Watch)
            && WarningSince !in s.w.kv)
  {
    hide WeatherSafety, EffectiveOverrideOf;
  }

  /** When nothing fails: enforced, un-ignored Danger forces the host off and lets active tasks
      be cut short; Warning forces it off exactly when the countdown from the stored mark, or
      from now, is over; an ignore_weather row keeps either from forcing; and without
      enforcement or below Warning nothing is forced and all marks go. */
  lemma SafetyTable(cfg: Config, env: Env, w: World)
    requires AllOK(env)
    ensures var s := WeatherSafety(cfg, env, w);
      && s.Ok?
      && (!cfg.enforce || env.level == Weather.Normal || env.level == Weather.Watch ==>
            s.value == Safety(false, false) && s.w.kv == w.kv - {WarningSince, DangerSince, DangerGrace})
      && (cfg.enforce && (env.level == Weather.Warning || env.level == Weather.Danger) && Ignored(env) ==>
            s.value == Safety(false, false) && s.w.kv == w.kv)
      && (cfg.enforce && env.level == Weather.Danger && !Ignored(env) ==>
            s.value == Safety(true, true) && s.w.kv == w.kv)
      && (cfg.enforce && env.level == Weather.Warning && !Ignored(env) ==>
            if WarningSince in w.kv
            then s.value == Safety(env.now - w.kv[WarningSince] >= cfg.countdown, false) && s.w.kv == w.kv
            else s.value == Safety(0 >= cfg.countdown, false) && s.w.kv == w.kv[WarningSince := env.now])
  {
    hide EffectiveOverrideOf;
  }

  // ----- what schedules and overrides want -----

  /** When nothing fails, the guests want the host on exactly when the target of some managed
      guest is on. */
  lemma {:induction false} AnyWantsOnExactly(cfg: Config, env: Env, w: World, i: nat)
    requires AllOK(env) && i <= |cfg.guests|
    ensures var r := AnyWantsOn(cfg, env, w, i);
      && r.Ok?
      && (r.value <==> exists j :: i <= j < |cfg.guests| && !cfg.guests[j].alwaysOn
                         && Target(cfg, env.rows, cfg.guests[j], env.now) == Wish(true, true))
    decreases |cfg.guests| - i
  {
    hide GuestWish, EffectiveOverrideOf;
    if i < |cfg.guests| {
      AnyWantsOnExactly(cfg, env, w, i + 1);
      AnyWantsOnExactly(cfg, env, w.(ops := w.ops + 1), i + 1);
    }
  }

  /** So schedules, guests and overrides decide about the host as follows. */
  lemma PlainWishExactly(cfg: Config, env: Env, w: World)
    requires AllOK(env) && (env.reachable ==> env.listing.Some?)
    requires ValidRows(env.rows) && |Where(Matching(HOST, env.now, POWER), env.rows)| <= 50
    ensures var plain := PlainWish(cfg, env, w);
      && (forall o :: Governs(env.rows, HOST, env.now, POWER, o) ==>
            && (o.action == On ==> plain == Wish(true, true))
            && (o.action == Off ==> plain == Wish(false, true))
            && (o.action == Pause ==> !plain.act))
      && ((forall o :: !InForce(env.rows, HOST, env.now, POWER, o)) ==>
            plain == Wish(ScheduledOn(cfg, cfg.hostSchedule, env.now)
                          || exists j :: 0 <= j < |cfg.guests| && !cfg.guests[j].alwaysOn
                               && Target(cfg, env.rows, cfg.guests[j], env.now) == Wish(true, true), true))
  {
    AnyWantsOnExactly(cfg, env, w.(ops := 1), 0);
    NoScheduleIsOff(cfg.zone, env.now);
    hide IsOn, EffectiveOverrideOf, AnyWantsOn, Target;
    EffectiveIsNewest(env.rows, HOST, env.now, POWER);
    forall o | Governs(env.rows, HOST, env.now, POWER, o)
      ensures EffectiveOverrideOf(env.rows, HOST, env.now, POWER) == Some(o)
    { GoverningRowIsFound(env.rows, HOST, env.now, POWER, o); }
  }

  // ----- when the node is told -----

  /** The safeguard forces the host off, and whether active tasks may be cut short. */
  ghost predicate Forced(cfg: Config, env: Env, kv: KV) {
    && cfg.enforce && !Ignored(env)
    && (env.level == Weather.Danger
        || (env.level == Weather.Warning
            && (if WarningSince in kv then env.now - kv[WarningSince] else 0) >= cfg.countdown))
  }

  ghost predicate MayCutShort(cfg: Config, env: Env, kv: KV) {
    && cfg.enforce && !Ignored(env) && env.level == Weather.Danger
    && (if DangerGrace in kv then env.now - kv[DangerGrace] else 0) >= cfg.grace
  }

  lemma DecidedSafety(cfg: Config, env: Env, w: World)
    requires AllOK(env) && (env.reachable ==> env.listing.Some?)
    ensures var d := Decided(cfg, env, w.(ops := 0));
      && d.Ok?
      && d.value.wish == (if Forced(cfg, env, w.kv) then Wish(false, true) else PlainWish(cfg, env, w))
      && (d.value.safety.bypass <==> cfg.enforce && env.level == Weather.Danger && !Ignored(env))
      && (d.value.safety.bypass ==> SameKey(w.kv, d.w.kv, DangerGrace))
  {
    var idle := w.(ops := 0);
    DecidedExactly(cfg, env, w);
    PrologueOK(cfg, env, idle);
    PrologueFrame(cfg, env, idle);
    SafetyTable(cfg, env, Prologue(cfg, env, idle).w);
    hide Prologue, WeatherSafety, PlainWish, Ignored;
  }

  /** A tick that wants the host off, with nothing failing. */
  lemma ActOffExactly(cfg: Config, env: Env, w: World, bypass: bool)
    requires !cfg.dryRun && AllOK(env) && env.reachable && env.tasks.Some?
    ensures var a := ActOnHost(cfg, env, w, Wish(false, true), bypass, Listing(env));
      var over := bypass && (if DangerGrace in w.kv then env.now - w.kv[DangerGrace] else 0) >= cfg.grace;
      && a.Ok? && a.value
      && NoWakeKeys(a.w.kv)
      && if env.tasks.value == 0 || over then ShutDown(env, w, a.w) else Postponed(w, a.w)
  {
    hide ClearWakeState, TaskCheck, ProceedShutdown, CompleteWake, PursueWake, Listing;
    var c := ClearWakeState(env, w);
    ClearWakeFrame(env, w);
    ClearWakeAll(env, w);
    assert SameKey(w.kv, c.w.kv, DangerGrace) by { assert DangerGrace !in WAKE_KEYS; }
    var t := TaskCheck(cfg, env, c.w, bypass);
    TaskCheckFrame(cfg, env, c.w, bypass);
    TasksDecide(cfg, env, c.w, bypass);
    ProceedFrame(cfg, env, t.w, Listing(env));
    ProceedDoes(cfg, env, t.w);
    ShutDownFrom(env, w, t.w, ProceedShutdown(cfg, env, t.w, Listing(env)).w);
    assert {DangerGrace, PostponedNotified} !! WAKE_KEYS;
  }

  /** The node was told with success, as the last call; every call, also those that stopped
      guests, was recorded; and no mark of a postponement is left. */
  ghost predicate ShutDown(env: Env, w: World, w': World) {
    && w.calls < w'.calls && w'.calls[|w'.calls| - 1] == HostCall(TaskOK)
    && w.events < w'.events && w'.events[|w'.events| - 1] == Event(env.now, HostShutdown, HOST, "schedule", false)
    && StopsRecorded(env, w'.calls[|w.calls|..|w'.calls| - 1], w'.events[|w.events|..|w'.events| - 1])
    && DangerGrace !in w'.kv && PostponedNotified !in w'.kv
  }

  ghost predicate StopsRecorded(env: Env, calls: seq<Call>, events: seq<Event>) {
    |calls| == |events|
    && forall k :: 0 <= k < |calls| ==>
         calls[k].GuestCall? && events[k] == Event(env.now, GuestShutdown, calls[k].name, "schedule", false)
  }

  lemma {:induction false} StopAllRecords(cfg: Config, env: Env, w: World, names: seq<string>)
    returns (cs: seq<Call>, es: seq<Event>)
    requires !cfg.dryRun && AllOK(env)
    ensures var r := StopAll(cfg, env, w, names, Listing(env));
      r.Ok? && r.w.kv == w.kv && r.w.calls == w.calls + cs && r.w.events == w.events + es && StopsRecorded(env, cs, es)
    decreases |names|
  {
    hide MustStop, Listing;
    cs, es := [], [];
    if names != [] {
      if MustStop(cfg, Listing(env), names[0]) {
        var p := Planned(names[0], false, "schedule");
        var r := Execute(cfg, env, w, p);
        assert r.Ok? && r.w.calls == w.calls + [GuestCall(names[0], false, TaskOK)];
        assert r.w.events == w.events + [Event(env.now, GuestShutdown, names[0], "schedule", false)];
        var moreCalls, moreEvents := StopAllRecords(cfg, env, r.w, names[1..]);
        cs := [GuestCall(names[0], false, TaskOK)] + moreCalls;
        es := [Event(env.now, GuestShutdown, names[0], "schedule", false)] + moreEvents;
      } else {
        cs, es := StopAllRecords(cfg, env, w, names[1..]);
      }
    }
  }

  /** Nothing was called or recorded, and the notice of the postponement is noted. */
  ghost predicate Postponed(w: World, w': World) { SameLogs(w, w') && PostponedNotified in w'.kv }

  lemma ShutDownFrom(env: Env, w: World, w1: World, w': World)
    requires SameLogs(w, w1)
    ensures ShutDown(env, w1, w') ==> ShutDown(env, w, w')
  {
  }

  lemma TasksDecide(cfg: Config, env: Env, w: World, bypass: bool)
    requires AllOK(env) && env.tasks.Some?
    ensures var t := TaskCheck(cfg, env, w, bypass);
      var over := bypass && (if DangerGrace in w.kv then env.now - w.kv[DangerGrace] else 0) >= cfg.grace;
      && t.Ok? && (t.value <==> env.tasks.value == 0 || over)
      && (!t.value ==> PostponedNotified in t.w.kv)
  {
  }

  lemma ProceedDoes(cfg: Config, env: Env, w: World)
    requires !cfg.dryRun && AllOK(env)
    ensures var r := ProceedShutdown(cfg, env, w, Listing(env)); r.Ok? && ShutDown(env, w, r.w)
  {
    hide StopAll, Reverse, Listing;
    var w2 := DeleteState(env, DeleteState(env, w, PostponedNotified).w, DangerGrace).w;
    assert PostponedNotified !in w2.kv && DangerGrace !in w2.kv;
    var s := StopAll(cfg, env, w2, Reverse(cfg.order), Listing(env));
    var cs, es := StopAllRecords(cfg, env, w2, Reverse(cfg.order));
    StopNodeDoes(cfg, env, s.w);
    hide StopNode, StopsRecorded;
    var r := ProceedShutdown(cfg, env, w, Listing(env));
    assert r.w.calls[|w.calls|..|r.w.calls| - 1] == cs && r.w.events[|w.events|..|r.w.events| - 1] == es;
  }

  lemma StopNodeDoes(cfg: Config, env: Env, w: World)
    requires !cfg.dryRun && AllOK(env)
    ensures var r := StopNode(cfg, env, w);
      && r.Ok? && r.w.kv == w.kv && r.w.calls == w.calls + [HostCall(TaskOK)]
      && r.w.events == w.events + [Event(env.now, HostShutdown, HOST, "schedule", false)]
  {
  }

  /** When the node is told, exactly, by a live tick in which nothing fails: when the safeguard
      forces it or schedules, guests and overrides want the host off, and there are no active
      tasks or Danger may cut them short. Otherwise a host wanted off is only postponed. */
  lemma HostToldExactly(cfg: Config, env: Env, w: World)
    requires !cfg.dryRun && AllOK(env) && env.trusted && env.reachable && env.listing.Some? && env.tasks.Some?
    ensures var w' := NextTick(cfg, env, w).w;
      var wantedOff := Forced(cfg, env, w.kv) || PlainWish(cfg, env, w) == Wish(false, true);
      && (HostTold(w, w') <==> wantedOff && (env.tasks.value == 0 || MayCutShort(cfg, env, w.kv)))
      && (HostTold(w, w') ==> ShutDown(env, w, w'))
      && (wantedOff && !HostTold(w, w') ==> Postponed(w, w'))
      && (wantedOff ==> NoWakeKeys(w'.kv))
  {
    var idle := w.(ops := 0);
    DecidedSafety(cfg, env, w);
    TickActs(cfg, env, idle);
    hide Decided, Tick, ActOnHost, GuestPass, Listing, PlainWish, Ignored, Touches;
    var d := Decided(cfg, env, idle);
    if d.value.wish == Wish(false, true) {
      ActOffExactly(cfg, env, d.w, d.value.safety.bypass);
      var a := ActOnHost(cfg, env, d.w, Wish(false, true), d.value.safety.bypass, Listing(env));
      ShutDownFrom(env, w, d.w, a.w);
    } else {
      NotWantedOffNotTold(cfg, env, w);
    }
  }

  lemma NotWantedOffNotTold(cfg: Config, env: Env, w: World)
    requires Decided(cfg, env, w.(ops := 0)).Ok? && Decided(cfg, env, w.(ops := 0)).value.wish != Wish(false, true)
    ensures !HostTold(w, NextTick(cfg, env, w).w)
  {
    var idle := w.(ops := 0);
    var st := TickTold(cfg, env, idle);
    hide Tick, Prologue, WeatherSafety, DecideHost, ActOnHost, GuestPass, Listing, TaskCheck, ClearWakeState;
  }

  /** Said of the level alone: below Warning the node is told exactly when schedules, guests
      and overrides want the host off and no tasks are active; at un-ignored Warning past the
      countdown, exactly when no tasks are active. */
  lemma HostToldByLevel(cfg: Config, env: Env, w: World)
    requires !cfg.dryRun && AllOK(env) && env.trusted && env.reachable && env.listing.Some? && env.tasks.Some?
    ensures var w' := NextTick(cfg, env, w).w;
      && (env.level == Weather.Normal || env.level == Weather.Watch || !cfg.enforce ==>
            (HostTold(w, w') <==> PlainWish(cfg, env, w) == Wish(false, true) && env.tasks.value == 0))
      && (cfg.enforce && env.level == Weather.Warning && !Ignored(env) && WarningSince in w.kv
          && env.now - w.kv[WarningSince] >= cfg.countdown ==>
            (HostTold(w, w') <==> env.tasks.value == 0))
  {
    hide NextTick, PlainWish, Ignored, HostTold;
    HostToldExactly(cfg, env, w);
  }

  /** When the active tasks cannot be counted the node is not told and no guest is stopped for
      it, whatever else happens: a tick that decides to shut the host down fails. */
  lemma UnknownTasksStopShutdown(cfg: Config, env: Env, w: World)
    requires env.tasks.None?
    ensures var d, r := Decided(cfg, env, w.(ops := 0)), NextTick(cfg, env, w);
      && !HostTold(w, r.w)
      && (env.trusted && env.reachable && d.Ok? && d.value.wish == Wish(false, true) ==> r.Fail? && SameLogs(w, r.w))
  {
    var idle := w.(ops := 0);
    var st := TickTold(cfg, env, idle);
    TickActs(cfg, env, idle);
    UnknownTasksFailCheck(cfg, env, w);
    hide Decided, Tick, Prologue, WeatherSafety, DecideHost, GuestPass, Listing, ClearWakeState, StoppedThenTold;
    hide CompleteWake, PursueWake, Touches, TaskCheck;
    var d := Decided(cfg, env, idle);
    if env.trusted && d.Ok? { ClearWakeFrame(env, d.w); }
  }

  lemma UnknownTasksFailCheck(cfg: Config, env: Env, w: World)
    requires env.tasks.None?
    ensures forall v, bypass :: TaskCheck(cfg, env, v, bypass) == Fail(v)
  {
  }

  // ----- ticks that leave everything alone -----

  /** An untrusted clock: the tick does nothing. */
  lemma UntrustedTickDoesNothing(cfg: Config, env: Env, w: World)
    requires !env.trusted
    ensures var r := NextTick(cfg, env, w); OnlyOps(w, r.w) && r.Ok? && !r.value
  {
  }
}
