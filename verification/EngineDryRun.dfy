/** Dry-run against live: the same decisions, store and events, and no mutating call. */
module EngineDryRun {
  import opened Prelude
  import opened Schedules
  import opened Overrides
  import opened Guests
  import opened EngineSpec
  import opened EngineFrames
  import opened EngineShutdown

  // ----- a dry-run makes no mutating call -----

  lemma {:induction false} StopAllDry(cfg: Config, env: Env, w: World, names: seq<string>, listing: map<string, bool>)
    requires cfg.dryRun
    ensures StopAll(cfg, env, w, names, listing).w.calls == w.calls
    decreases |names|
  {
    hide MustStop;
    if names != [] {
      var r := Execute(cfg, env, w, Planned(names[0], false, "schedule"));
      StopAllDry(cfg, env, r.w, names[1..], listing);
      StopAllDry(cfg, env, w, names[1..], listing);
    }
  }

  lemma {:induction false} ExecuteAllDry(cfg: Config, env: Env, w: World, names: seq<string>,
                                         actions: map<string, Planned>, failed: nat)
    requires cfg.dryRun
    ensures ExecuteAll(cfg, env, w, names, actions, failed).0.calls == w.calls
    decreases |names|
  {
    if names != [] {
      if names[0] in actions {
        var r := Execute(cfg, env, w, actions[names[0]]);
        ExecuteAllDry(cfg, env, r.w, names[1..], actions, if r.Fail? then failed + 1 else failed);
      } else {
        ExecuteAllDry(cfg, env, w, names[1..], actions, failed);
      }
    }
  }

  lemma ProceedDry(cfg: Config, env: Env, w: World, listing: map<string, bool>)
    requires cfg.dryRun
    ensures ProceedShutdown(cfg, env, w, listing).w.calls == w.calls
  {
    hide StopAll, Reverse;
    var w2 := DeleteState(env, DeleteState(env, w, PostponedNotified).w, DangerGrace).w;
    StopAllDry(cfg, env, w2, Reverse(cfg.order), listing);
  }

  lemma PursueDry(cfg: Config, env: Env, w: World)
    requires cfg.dryRun
    ensures PursueWake(cfg, env, w).w.calls == w.calls
  {
    hide NoteFirstWake, NoteRetry, GiveUp;
    var w2 := w.(ops := w.ops + 2);
    FirstDry(cfg, env, w2);
    RetryDry(cfg, env, w2);
  }

  lemma FirstDry(cfg: Config, env: Env, w: World)
    requires cfg.dryRun
    ensures FirstWake(cfg, env, w).w.calls == w.calls
  {
  }

  lemma RetryDry(cfg: Config, env: Env, w: World)
    requires cfg.dryRun
    ensures RetryWake(cfg, env, w).w.calls == w.calls
  {
  }

  lemma ActDry(cfg: Config, env: Env, w: World, wish: Wish, bypass: bool, listing: map<string, bool>)
    requires cfg.dryRun
    ensures ActOnHost(cfg, env, w, wish, bypass, listing).w.calls == w.calls
  {
    hide ClearWakeState, CompleteWake, TaskCheck, ProceedShutdown, PursueWake;
    var c := ClearWakeState(env, w);
    ClearWakeFrame(env, w);
    var t := TaskCheck(cfg, env, c.w, bypass);
    TaskCheckFrame(cfg, env, c.w, bypass);
    ProceedDry(cfg, env, t.w, listing);
    var d := CompleteWake(env, w);
    CompleteWakeFrame(env, w);
    ClearWakeFrame(env, d.w);
    PursueDry(cfg, env, w);
  }

  lemma GuestPassDry(cfg: Config, env: Env, w: World, lastTick: Option<int>, listing: map<string, bool>)
    requires cfg.dryRun
    ensures GuestPass(cfg, env, w, lastTick, listing).w.calls == w.calls
  {
    hide PlanFrom, ExecuteAll, Reverse;
    var p := PlanFrom(cfg, env, w, lastTick, listing, 0, Plans(map[], map[]));
    PlanFrame(cfg, env, w, lastTick, listing, 0, Plans(map[], map[]));
    if p.Ok? {
      ExecuteAllDry(cfg, env, p.w, Reverse(cfg.order), p.value.stops, 0);
      var (w2, f) := ExecuteAll(cfg, env, p.w, Reverse(cfg.order), p.value.stops, 0);
      ExecuteAllDry(cfg, env, w2, cfg.order, p.value.starts, f);
    }
  }

  /** Whatever a dry-run tick meets, it makes no Proxmox or Wake-on-LAN call. */
  lemma DryRunMakesNoCall(cfg: Config, env: Env, w: World)
    requires cfg.dryRun
    ensures NextTick(cfg, env, w).w.calls == w.calls
  {
    hide Tick, Prologue, WeatherSafety, DecideHost, ActOnHost, GuestPass;
    var st := TickStages(cfg, env, w.(ops := 0));
    match st {
      case NoIntro =>
      case NoSafety(intro, w1) => WeatherSafetyFrame(cfg, env, w1);
      case NoWish(intro, w1, safety, w2) => WeatherSafetyFrame(cfg, env, w1);
      case Acting(intro, w1, safety, w2, wish, w3) =>
        WeatherSafetyFrame(cfg, env, w1);
        var a := ActOnHost(cfg, env, w3, wish, safety.bypass, Listing(env));
        ActDry(cfg, env, w3, wish, safety.bypass, Listing(env));
        GuestPassDry(cfg, env, a.w, intro.lastTick, Listing(env));
    }
  }

  // ----- the dry_run flag of events -----

  /** Whatever was recorded carries the flag of the mode, except that a wake success never
      says it was a dry-run. */
  ghost predicate Flagged(cfg: Config, w: World, w': World) {
    && w.events <= w'.events
    && forall i :: |w.events| <= i < |w'.events| ==>
         (w'.events[i].dryRun <==> cfg.dryRun && w'.events[i].kind != HostWakeOK)
  }

  lemma ExecuteFlagged(cfg: Config, env: Env, w: World, a: Planned)
    ensures Flagged(cfg, w, Execute(cfg, env, w, a).w)
  {
  }

  lemma {:induction false} StopAllFlagged(cfg: Config, env: Env, w: World, names: seq<string>,
                                          listing: map<string, bool>)
    ensures Flagged(cfg, w, StopAll(cfg, env, w, names, listing).w)
    decreases |names|
  {
    hide MustStop, Execute;
    if names != [] {
      var a := Planned(names[0], false, "schedule");
      ExecuteFlagged(cfg, env, w, a);
      StopAllFlagged(cfg, env, Execute(cfg, env, w, a).w, names[1..], listing);
      StopAllFlagged(cfg, env, w, names[1..], listing);
    }
  }

  lemma {:induction false} ExecuteAllFlagged(cfg: Config, env: Env, w: World, names: seq<string>,
                                             actions: map<string, Planned>, failed: nat)
    ensures Flagged(cfg, w, ExecuteAll(cfg, env, w, names, actions, failed).0)
    decreases |names|
  {
    hide Execute;
    if names != [] {
      if names[0] in actions {
        var r := Execute(cfg, env, w, actions[names[0]]);
        ExecuteFlagged(cfg, env, w, actions[names[0]]);
        ExecuteAllFlagged(cfg, env, r.w, names[1..], actions, if r.Fail? then failed + 1 else failed);
      } else {
        ExecuteAllFlagged(cfg, env, w, names[1..], actions, failed);
      }
    }
  }

  lemma ProceedFlagged(cfg: Config, env: Env, w: World, listing: map<string, bool>)
    ensures Flagged(cfg, w, ProceedShutdown(cfg, env, w, listing).w)
  {
    hide StopAll, StopNode, Reverse;
    var w2 := DeleteState(env, DeleteState(env, w, PostponedNotified).w, DangerGrace).w;
    var r := StopAll(cfg, env, w2, Reverse(cfg.order), listing);
    StopAllFlagged(cfg, env, w2, Reverse(cfg.order), listing);
    StopNodeFlagged(cfg, env, r.w);
  }

  lemma StopNodeFlagged(cfg: Config, env: Env, w: World)
    ensures Flagged(cfg, w, StopNode(cfg, env, w).w)
  {
  }

  lemma FirstFlagged(cfg: Config, env: Env, w: World)
    ensures Flagged(cfg, w, FirstWake(cfg, env, w).w)
  {
    hide SendWoL;
    SendWoLFrame(cfg, env, w);
  }

  lemma RetryFlagged(cfg: Config, env: Env, w: World)
    ensures Flagged(cfg, w, RetryWake(cfg, env, w).w)
  {
    hide SendWoL;
    SendWoLFrame(cfg, env, w.(ops := w.ops + 1));
  }

  lemma ActFlagged(cfg: Config, env: Env, w: World, wish: Wish, bypass: bool, listing: map<string, bool>)
    ensures Flagged(cfg, w, ActOnHost(cfg, env, w, wish, bypass, listing).w)
  {
    hide ClearWakeState, CompleteWake, TaskCheck, ProceedShutdown, FirstWake, RetryWake;
    var c := ClearWakeState(env, w);
    ClearWakeFrame(env, w);
    var t := TaskCheck(cfg, env, c.w, bypass);
    TaskCheckFrame(cfg, env, c.w, bypass);
    ProceedFlagged(cfg, env, t.w, listing);
    CompleteWakeFrame(env, w);
    ClearWakeFrame(env, CompleteWake(env, w).w);
    FirstFlagged(cfg, env, w.(ops := w.ops + 2));
    RetryFlagged(cfg, env, w.(ops := w.ops + 2));
  }

  lemma GuestPassFlagged(cfg: Config, env: Env, w: World, lastTick: Option<int>, listing: map<string, bool>)
    ensures Flagged(cfg, w, GuestPass(cfg, env, w, lastTick, listing).w)
  {
    hide PlanFrom, ExecuteAll, Reverse;
    var p := PlanFrom(cfg, env, w, lastTick, listing, 0, Plans(map[], map[]));
    PlanFrame(cfg, env, w, lastTick, listing, 0, Plans(map[], map[]));
    if p.Ok? {
      var (w2, f) := ExecuteAll(cfg, env, p.w, Reverse(cfg.order), p.value.stops, 0);
      ExecuteAllFlagged(cfg, env, p.w, Reverse(cfg.order), p.value.stops, 0);
      ExecuteAllFlagged(cfg, env, w2, cfg.order, p.value.starts, f);
    }
  }

  /** So the audit log tells dry-run ticks from live ones, whatever fails, by every event but
      host_wake_ok. */
  lemma EventsAreFlagged(cfg: Config, env: Env, w: World)
    ensures Flagged(cfg, w, NextTick(cfg, env, w).w)
  {
    var idle := w.(ops := 0);
    TickActs(cfg, env, idle);
    hide Tick, Decided, ActOnHost, GuestPass, Listing, Touches;
    var d := Decided(cfg, env, idle);
    if env.trusted && d.Ok? {
      var a := ActOnHost(cfg, env, d.w, d.value.wish, d.value.safety.bypass, Listing(env));
      ActFlagged(cfg, env, d.w, d.value.wish, d.value.safety.bypass, Listing(env));
      GuestPassFlagged(cfg, env, a.w, d.value.intro.lastTick, Listing(env));
    }
  }

  // ----- the same decisions -----

  ghost predicate SameEvents(a: seq<Event>, b: seq<Event>) {
    |a| == |b| && forall i :: 0 <= i < |a| ==> a[i].(dryRun := false) == b[i].(dryRun := false)
  }

  /** Equal stores, and equal events up to the dry_run flag. */
  ghost predicate Alike(a: World, b: World) { a.kv == b.kv && SameEvents(a.events, b.events) }

  ghost predicate AlikeRes<T>(x: Res<T>, y: Res<T>) { x.Ok? && y.Ok? && x.value == y.value && Alike(x.w, y.w) }

  /** The two modes of one configuration. */
  ghost predicate Modes(live: Config, dry: Config) { !live.dryRun && dry == live.(dryRun := true) }

  lemma EventAlike(a: World, b: World, e: Event, f: Event)
    requires Alike(a, b) && e.(dryRun := false) == f.(dryRun := false)
    ensures SameEvents(a.events + [e], b.events + [f])
  {
  }

  lemma {:induction false} AnyWantsOnAlike(live: Config, dry: Config, env: Env, a: World, b: World, i: nat)
    requires Modes(live, dry) && AllOK(env) && Alike(a, b) && i <= |live.guests|
    ensures AlikeRes(AnyWantsOn(live, env, a, i), AnyWantsOn(dry, env, b, i))
    decreases |live.guests| - i
  {
    hide WishFor, IsOn, EffectiveOverrideOf;
    if i < |live.guests| {
      AnyWantsOnAlike(live, dry, env, a, b, i + 1);
      AnyWantsOnAlike(live, dry, env, a.(ops := a.ops + 1), b.(ops := b.ops + 1), i + 1);
    }
  }

  lemma PrologueAlike(live: Config, dry: Config, env: Env, a: World, b: World)
    requires Modes(live, dry) && AllOK(env) && Alike(a, b) && (env.reachable ==> env.listing.Some?)
    ensures AlikeRes(Prologue(live, env, a), Prologue(dry, env, b))
  {
    AnyWantsOnAlike(live, dry, env, a.(ops := a.ops + 1), b.(ops := b.ops + 1), 0);
  }

  lemma ClearWeatherAlike(env: Env, a: World, b: World)
    requires AllOK(env) && Alike(a, b)
    ensures AlikeRes(ClearWeatherState(env, a), ClearWeatherState(env, b))
  {
  }

  lemma StateSinceAlike(env: Env, a: World, b: World, k: Key)
    requires AllOK(env) && Alike(a, b)
    ensures AlikeRes(StateSince(env, a, k), StateSince(env, b, k))
  {
  }

  lemma WeatherSafetyAlike(live: Config, dry: Config, env: Env, a: World, b: World)
    requires Modes(live, dry) && AllOK(env) && Alike(a, b)
    ensures AlikeRes(WeatherSafety(live, env, a), WeatherSafety(dry, env, b))
  {
    hide ClearWeatherState, StateSince, EffectiveOverrideOf;
    ClearWeatherAlike(env, a, b);
    StateSinceAlike(env, a.(ops := a.ops + 1), b.(ops := b.ops + 1), WarningSince);
  }

  lemma DecideHostAlike(live: Config, dry: Config, env: Env, a: World, b: World, wantsOn: bool, safety: Safety)
    requires Modes(live, dry) && AllOK(env) && Alike(a, b)
    ensures AlikeRes(DecideHost(live, env, a, wantsOn, safety), DecideHost(dry, env, b, wantsOn, safety))
  {
    hide WishFor, IsOn, EffectiveOverrideOf;
  }

  lemma ClearWakeAlike(env: Env, a: World, b: World)
    requires AllOK(env) && Alike(a, b)
    ensures AlikeRes(ClearWakeState(env, a), ClearWakeState(env, b))
  {
  }

  lemma CompleteWakeAlike(env: Env, a: World, b: World)
    requires AllOK(env) && Alike(a, b)
    ensures AlikeRes(CompleteWake(env, a), CompleteWake(env, b))
  {
    var e := Event(env.now, HostWakeOK, HOST, "schedule", false);
    EventAlike(a, b, e, e);
  }

  lemma FirstWakeAlike(live: Config, dry: Config, env: Env, a: World, b: World)
    requires Modes(live, dry) && AllOK(env) && Alike(a, b)
    ensures AlikeRes(FirstWake(live, env, a), FirstWake(dry, env, b))
  {
    EventAlike(a, b, Event(env.now, HostWake, HOST, "schedule", false),
               Event(env.now, HostWake, HOST, "schedule", true));
  }

  lemma GiveUpAlike(live: Config, dry: Config, env: Env, a: World, b: World)
    requires Modes(live, dry) && AllOK(env) && Alike(a, b)
    ensures AlikeRes(GiveUp(live, env, a), GiveUp(dry, env, b))
  {
    EventAlike(a, b, Event(env.now, HostWakeFailed, HOST, "schedule", false),
               Event(env.now, HostWakeFailed, HOST, "schedule", true));
  }

  lemma RetryWakeAlike(live: Config, dry: Config, env: Env, a: World, b: World)
    requires Modes(live, dry) && AllOK(env) && Alike(a, b)
    ensures AlikeRes(RetryWake(live, env, a), RetryWake(dry, env, b))
  {
    hide GiveUp;
    GiveUpAlike(live, dry, env, a.(ops := a.ops + 1), b.(ops := b.ops + 1));
  }

  lemma PursueAlike(live: Config, dry: Config, env: Env, a: World, b: World)
    requires Modes(live, dry) && AllOK(env) && Alike(a, b)
    ensures AlikeRes(PursueWake(live, env, a), PursueWake(dry, env, b))
  {
    hide FirstWake, RetryWake;
    var a2, b2 := a.(ops := a.ops + 2), b.(ops := b.ops + 2);
    FirstWakeAlike(live, dry, env, a2, b2);
    RetryWakeAlike(live, dry, env, a2, b2);
  }

  lemma TaskCheckAlike(live: Config, dry: Config, env: Env, a: World, b: World, bypass: bool)
    requires Modes(live, dry) && AllOK(env) && Alike(a, b) && env.tasks.Some?
    ensures AlikeRes(TaskCheck(live, env, a, bypass), TaskCheck(dry, env, b, bypass))
  {
    hide StateSince;
    StateSinceAlike(env, a, b, DangerGrace);
  }

  lemma ExecuteAlike(live: Config, dry: Config, env: Env, a: World, b: World, p: Planned)
    requires Modes(live, dry) && AllOK(env) && Alike(a, b)
    ensures AlikeRes(Execute(live, env, a, p), Execute(dry, env, b, p))
  {
    EventAlike(a, b, EventOf(env, p, false), EventOf(env, p, true));
  }

  lemma {:induction false} StopAllAlike(live: Config, dry: Config, env: Env, a: World, b: World, names: seq<string>,
                                        listing: map<string, bool>)
    requires Modes(live, dry) && AllOK(env) && Alike(a, b)
    ensures AlikeRes(StopAll(live, env, a, names, listing), StopAll(dry, env, b, names, listing))
    decreases |names|
  {
    hide GuestByName, Execute;
    if names != [] {
      var p := Planned(names[0], false, "schedule");
      assert MustStop(live, listing, names[0]) == MustStop(dry, listing, names[0]);
      ExecuteAlike(live, dry, env, a, b, p);
      StopAllAlike(live, dry, env, Execute(live, env, a, p).w, Execute(dry, env, b, p).w, names[1..], listing);
      StopAllAlike(live, dry, env, a, b, names[1..], listing);
    }
  }

  lemma StopNodeAlike(live: Config, dry: Config, env: Env, a: World, b: World)
    requires Modes(live, dry) && AllOK(env) && Alike(a, b)
    ensures AlikeRes(StopNode(live, env, a), StopNode(dry, env, b))
  {
    EventAlike(a, b, Event(env.now, HostShutdown, HOST, "schedule", false),
               Event(env.now, HostShutdown, HOST, "schedule", true));
  }

  lemma ProceedAlike(live: Config, dry: Config, env: Env, a: World, b: World, listing: map<string, bool>)
    requires Modes(live, dry) && AllOK(env) && Alike(a, b)
    ensures AlikeRes(ProceedShutdown(live, env, a, listing), ProceedShutdown(dry, env, b, listing))
  {
    hide StopAll, StopNode, Reverse;
    var a2 := DeleteState(env, DeleteState(env, a, PostponedNotified).w, DangerGrace).w;
    var b2 := DeleteState(env, DeleteState(env, b, PostponedNotified).w, DangerGrace).w;
    StopAllAlike(live, dry, env, a2, b2, Reverse(live.order), listing);
    StopNodeAlike(live, dry, env, StopAll(live, env, a2, Reverse(live.order), listing).w,
                  StopAll(dry, env, b2, Reverse(live.order), listing).w);
  }

  lemma ActAlike(live: Config, dry: Config, env: Env, a: World, b: World, wish: Wish, bypass: bool,
                 listing: map<string, bool>)
    requires Modes(live, dry) && AllOK(env) && Alike(a, b) && env.tasks.Some?
    ensures AlikeRes(ActOnHost(live, env, a, wish, bypass, listing), ActOnHost(dry, env, b, wish, bypass, listing))
  {
    hide ClearWakeState, CompleteWake, TaskCheck, ProceedShutdown, PursueWake, Alike;
    ClearWakeAlike(env, a, b);
    var c, d := ClearWakeState(env, a), ClearWakeState(env, b);
    TaskCheckAlike(live, dry, env, c.w, d.w, bypass);
    ProceedAlike(live, dry, env, TaskCheck(live, env, c.w, bypass).w, TaskCheck(dry, env, d.w, bypass).w, listing);
    CompleteWakeAlike(env, a, b);
    ClearWakeAlike(env, CompleteWake(env, a).w, CompleteWake(env, b).w);
    PursueAlike(live, dry, env, a, b);
  }

  lemma PlanGuestAlike(live: Config, dry: Config, env: Env, a: World, b: World, lastTick: Option<int>,
                       listing: map<string, bool>, g: GuestConfig)
    requires Modes(live, dry) && AllOK(env) && Alike(a, b)
    ensures AlikeRes(PlanGuest(live, env, a, lastTick, listing, g), PlanGuest(dry, env, b, lastTick, listing, g))
  {
    hide WishFor, IsOn, EffectiveOverrideOf, CrossingsOf;
  }

  lemma {:induction false} PlanAlike(live: Config, dry: Config, env: Env, a: World, b: World, lastTick: Option<int>,
                                     listing: map<string, bool>, i: nat, p: Plans)
    requires Modes(live, dry) && AllOK(env) && Alike(a, b) && i <= |live.guests|
    ensures AlikeRes(PlanFrom(live, env, a, lastTick, listing, i, p), PlanFrom(dry, env, b, lastTick, listing, i, p))
    decreases |live.guests| - i
  {
    hide PlanGuest, Alike;
    if i < |live.guests| {
      var g := live.guests[i];
      PlanGuestAlike(live, dry, env, a, b, lastTick, listing, g);
      var x := PlanGuest(live, env, a, lastTick, listing, g);
      PlanAlike(live, dry, env, x.w, PlanGuest(dry, env, b, lastTick, listing, g).w, lastTick, listing, i + 1,
                AddPlan(p, x.value));
    }
  }

  lemma {:induction false} ExecuteAllAlike(live: Config, dry: Config, env: Env, a: World, b: World,
                                           names: seq<string>, actions: map<string, Planned>, failed: nat)
    requires Modes(live, dry) && AllOK(env) && Alike(a, b)
    ensures var x := ExecuteAll(live, env, a, names, actions, failed);
      var y := ExecuteAll(dry, env, b, names, actions, failed);
      Alike(x.0, y.0) && x.1 == y.1 == failed
    decreases |names|
  {
    hide Execute, Alike;
    if names != [] {
      if names[0] in actions {
        var p := actions[names[0]];
        ExecuteAlike(live, dry, env, a, b, p);
        ExecuteAllAlike(live, dry, env, Execute(live, env, a, p).w, Execute(dry, env, b, p).w, names[1..], actions,
                        failed);
      } else {
        ExecuteAllAlike(live, dry, env, a, b, names[1..], actions, failed);
      }
    }
  }

  lemma GuestPassAlike(live: Config, dry: Config, env: Env, a: World, b: World, lastTick: Option<int>,
                       listing: map<string, bool>)
    requires Modes(live, dry) && AllOK(env) && Alike(a, b)
    ensures AlikeRes(GuestPass(live, env, a, lastTick, listing), GuestPass(dry, env, b, lastTick, listing))
  {
    hide PlanFrom, ExecuteAll, Reverse;
    var empty := Plans(map[], map[]);
    PlanAlike(live, dry, env, a, b, lastTick, listing, 0, empty);
    var x, y := PlanFrom(live, env, a, lastTick, listing, 0, empty), PlanFrom(dry, env, b, lastTick, listing, 0, empty);
    ExecuteAllAlike(live, dry, env, x.w, y.w, Reverse(live.order), x.value.stops, 0);
    var (x2, f) := ExecuteAll(live, env, x.w, Reverse(live.order), x.value.stops, 0);
    var (y2, g) := ExecuteAll(dry, env, y.w, Reverse(live.order), x.value.stops, 0);
    ExecuteAllAlike(live, dry, env, x2, y2, live.order, x.value.starts, 0);
  }

  lemma ReconcileAlike(live: Config, dry: Config, env: Env, a: World, b: World, wantsOn: bool,
                       listing: map<string, bool>)
    requires Modes(live, dry) && AllOK(env) && Alike(a, b) && env.tasks.Some?
    ensures AlikeRes(ReconcileHost(live, env, a, wantsOn, listing), ReconcileHost(dry, env, b, wantsOn, listing))
  {
    hide WeatherSafety, DecideHost, ActOnHost, Alike;
    WeatherSafetyAlike(live, dry, env, a, b);
    var s, t := WeatherSafety(live, env, a), WeatherSafety(dry, env, b);
    DecideHostAlike(live, dry, env, s.w, t.w, wantsOn, s.value);
    var x, y := DecideHost(live, env, s.w, wantsOn, s.value), DecideHost(dry, env, t.w, wantsOn, s.value);
    ActAlike(live, dry, env, x.w, y.w, x.value, s.value.bypass, listing);
  }

  /** From equal stores and equal observations, with every call succeeding, a dry-run tick
      and a live tick end alike: same outcome, same stored state, same events in the same
      order up to the dry_run flag. */
  lemma DryRunMirrorsLive(live: Config, dry: Config, env: Env, a: World, b: World)
    requires Modes(live, dry) && AllOK(env) && Alike(a, b)
    requires env.tasks.Some? && (env.reachable ==> env.listing.Some?)
    ensures AlikeRes(NextTick(live, env, a), NextTick(dry, env, b))
    ensures NextTick(dry, env, b).w.calls == b.calls
  {
    DryRunMakesNoCall(dry, env, b);
    var a0, b0 := a.(ops := 0), b.(ops := 0);
    PrologueAlike(live, dry, env, a0, b0);
    var p, q := Prologue(live, env, a0), Prologue(dry, env, b0);
    hide Prologue, ReconcileHost, GuestPass, Listing, Alike;
    ReconcileAlike(live, dry, env, p.w, q.w, p.value.wantsOn, Listing(env));
    var u := ReconcileHost(live, env, p.w, p.value.wantsOn, Listing(env));
    var v := ReconcileHost(dry, env, q.w, p.value.wantsOn, Listing(env));
    GuestPassAlike(live, dry, env, u.w, v.w, p.value.lastTick, Listing(env));
  }
}
