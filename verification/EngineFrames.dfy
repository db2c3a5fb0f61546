/** What each part of a tick leaves alone. */
module EngineFrames {
  import opened Prelude
  import opened Overrides
  import opened Guests
  import opened EngineSpec

  ghost predicate SameKey(a: KV, b: KV, k: Key) {
    (k in a <==> k in b) && (k in a ==> a[k] == b[k])
  }

  /** Only the given keys may differ. */
  ghost predicate Touches(w: World, w': World, keys: set<Key>) {
    forall k :: k !in keys ==> SameKey(w.kv, w'.kv, k)
  }

  /** Nothing but the operation count may differ. */
  ghost predicate OnlyOps(w: World, w': World) {
    w.kv == w'.kv && w.events == w'.events && w.calls == w'.calls
  }

  ghost predicate SameLogs(w: World, w': World) {
    w.events == w'.events && w.calls == w'.calls
  }

  /** Nothing a tick attempts fails. */
  ghost predicate AllOK(env: Env) { forall n :: env.ok(n) }

  /** Only guest calls were added to the log. */
  ghost predicate AddsOnlyGuestCalls(w: World, w': World) {
    && w.calls <= w'.calls
    && forall i :: |w.calls| <= i < |w'.calls| ==> w'.calls[i].GuestCall?
  }

  function IsGuestEvent(e: Event): bool { e.kind == GuestStart || e.kind == GuestShutdown }

  ghost predicate AddsOnlyGuestEvents(w: World, w': World) {
    && w.events <= w'.events
    && forall i :: |w.events| <= i < |w'.events| ==> IsGuestEvent(w'.events[i])
  }

  lemma TouchesJoin(w: World, w1: World, w2: World, a: set<Key>, b: set<Key>, keys: set<Key>)
    requires Touches(w, w1, a) && Touches(w1, w2, b) && a <= keys && b <= keys
    ensures Touches(w, w2, keys)
  {
    forall k | k !in keys ensures SameKey(w.kv, w2.kv, k) { assert k !in a && k !in b; }
  }

  const WEATHER_KEYS: set<Key> := {WarningSince, DangerSince, DangerGrace}
  const WAKE_KEYS: set<Key> := {WakeAttempts, WakeLastSent, WakeFailed}

  lemma {:induction false} AnyWantsOnFrame(cfg: Config, env: Env, w: World, i: nat)
    requires i <= |cfg.guests|
    ensures OnlyOps(w, AnyWantsOn(cfg, env, w, i).w)
    decreases |cfg.guests| - i
  {
    if i < |cfg.guests| && cfg.guests[i].alwaysOn {
      AnyWantsOnFrame(cfg, env, w, i + 1);
    } else if i < |cfg.guests| {
      var r := Query(env, w, cfg.guests[i].name, env.now, ANY);
      if r.Ok? { AnyWantsOnFrame(cfg, env, r.w, i + 1); }
    }
  }

  lemma PrologueFrame(cfg: Config, env: Env, w: World)
    ensures OnlyOps(w, Prologue(cfg, env, w).w)
    ensures Prologue(cfg, env, w).Ok? ==>
      Prologue(cfg, env, w).value.lastTick == if LastTick in w.kv then Some(w.kv[LastTick]) else None
  {
    var r := GetState(env, w, LastTick);
    AnyWantsOnFrame(cfg, env, r.w, 0);
  }

  lemma ClearWeatherFrame(env: Env, w: World)
    ensures Touches(w, ClearWeatherState(env, w).w, WEATHER_KEYS)
    ensures SameLogs(w, ClearWeatherState(env, w).w)
  {
  }

  lemma WeatherSafetyFrame(cfg: Config, env: Env, w: World)
    ensures Touches(w, WeatherSafety(cfg, env, w).w, WEATHER_KEYS)
    ensures SameLogs(w, WeatherSafety(cfg, env, w).w)
  {
    hide ClearWeatherState;
    ClearWeatherFrame(env, w);
  }

  lemma DecideHostFrame(cfg: Config, env: Env, w: World, wantsOn: bool, safety: Safety)
    ensures OnlyOps(w, DecideHost(cfg, env, w, wantsOn, safety).w)
  {
  }

  lemma ClearWakeFrame(env: Env, w: World)
    ensures Touches(w, ClearWakeState(env, w).w, WAKE_KEYS)
    ensures SameLogs(w, ClearWakeState(env, w).w)
    ensures ClearWakeState(env, w).w.kv.Keys <= w.kv.Keys
    ensures forall k :: k in ClearWakeState(env, w).w.kv ==> ClearWakeState(env, w).w.kv[k] == w.kv[k]
  {
  }

  lemma CompleteWakeFrame(env: Env, w: World)
    ensures var w' := CompleteWake(env, w).w;
      && Touches(w, w', {LastWakeOK}) && w.calls == w'.calls
      && (w'.events == w.events || w'.events == w.events + [Event(env.now, HostWakeOK, HOST, "schedule", false)])
  {
  }

  ghost predicate AddsAtMostWakeCall(w: World, w': World) {
    w'.calls == w.calls || exists sent :: w'.calls == w.calls + [WakeCall(sent)]
  }

  lemma SendWoLFrame(cfg: Config, env: Env, w: World)
    ensures var w' := SendWoL(cfg, env, w).w;
      w'.kv == w.kv && w'.events == w.events && AddsAtMostWakeCall(w, w')
  {
  }

  lemma FirstWakeFrame(cfg: Config, env: Env, w: World)
    ensures var w' := FirstWake(cfg, env, w).w; Touches(w, w', WAKE_KEYS) && AddsAtMostWakeCall(w, w')
  {
    hide SendWoL;
    SendWoLFrame(cfg, env, w);
  }

  lemma RetryWakeFrame(cfg: Config, env: Env, w: World)
    ensures var w' := RetryWake(cfg, env, w).w; Touches(w, w', WAKE_KEYS) && AddsAtMostWakeCall(w, w')
  {
    hide SendWoL;
    var r := GetState(env, w, WakeAttempts);
    SendWoLFrame(cfg, env, r.w);
  }

  lemma PursueWakeFrame(cfg: Config, env: Env, w: World)
    ensures var w' := PursueWake(cfg, env, w).w; Touches(w, w', WAKE_KEYS) && AddsAtMostWakeCall(w, w')
  {
    hide FirstWake, RetryWake;
    var w2 := w.(ops := w.ops + 2);
    FirstWakeFrame(cfg, env, w2);
    RetryWakeFrame(cfg, env, w2);
  }

  lemma GracePassedFrame(cfg: Config, env: Env, w: World, bypass: bool)
    ensures Touches(w, GracePassed(cfg, env, w, bypass).w, {DangerGrace})
    ensures SameLogs(w, GracePassed(cfg, env, w, bypass).w)
  {
  }

  lemma TaskCheckFrame(cfg: Config, env: Env, w: World, bypass: bool)
    ensures Touches(w, TaskCheck(cfg, env, w, bypass).w, {DangerGrace, PostponedNotified})
    ensures SameLogs(w, TaskCheck(cfg, env, w, bypass).w)
  {
    hide GracePassed;
    GracePassedFrame(cfg, env, w, bypass);
  }

  lemma ExecuteFrame(cfg: Config, env: Env, w: World, a: Planned)
    ensures var w' := Execute(cfg, env, w, a).w;
      w'.kv == w.kv && AddsOnlyGuestCalls(w, w') && AddsOnlyGuestEvents(w, w')
  {
  }

  lemma {:induction false} StopAllFrame(cfg: Config, env: Env, w: World, names: seq<string>, listing: map<string, bool>)
    ensures var w' := StopAll(cfg, env, w, names, listing).w;
      w'.kv == w.kv && AddsOnlyGuestCalls(w, w') && AddsOnlyGuestEvents(w, w')
    decreases |names|
  {
    if names != [] {
      if MustStop(cfg, listing, names[0]) {
        var r := Execute(cfg, env, w, Planned(names[0], false, "schedule"));
        ExecuteFrame(cfg, env, w, Planned(names[0], false, "schedule"));
        if r.Ok? { StopAllFrame(cfg, env, r.w, names[1..], listing); }
      } else {
        StopAllFrame(cfg, env, w, names[1..], listing);
      }
    }
  }

  lemma StopNodeFrame(cfg: Config, env: Env, w: World)
    ensures var w' := StopNode(cfg, env, w).w;
      && w'.kv == w.kv
      && (w'.calls == w.calls || exists o :: w'.calls == w.calls + [HostCall(o)])
      && (w'.events == w.events || exists e :: w'.events == w.events + [e] && e.kind == HostShutdown)
  {
  }

  lemma TriggeredFrame(cfg: Config, env: Env, w: World, lastTick: Option<int>, g: GuestConfig, ov: Option<Override>)
    ensures OnlyOps(w, Triggered(cfg, env, w, lastTick, g, ov).w)
  {
  }

  lemma PlanGuestFrame(cfg: Config, env: Env, w: World, lastTick: Option<int>, listing: map<string, bool>,
                       g: GuestConfig)
    ensures OnlyOps(w, PlanGuest(cfg, env, w, lastTick, listing, g).w)
  {
    hide Triggered, GuestWish;
    var q := Query(env, w, g.name, env.now, ANY);
    if q.Ok? { TriggeredFrame(cfg, env, q.w, lastTick, g, q.value); }
  }

  lemma {:induction false} PlanFrame(cfg: Config, env: Env, w: World, lastTick: Option<int>,
                                     listing: map<string, bool>, i: nat, p: Plans)
    requires i <= |cfg.guests|
    ensures OnlyOps(w, PlanFrom(cfg, env, w, lastTick, listing, i, p).w)
    decreases |cfg.guests| - i
  {
    hide PlanGuest;
    if i < |cfg.guests| {
      var r := PlanGuest(cfg, env, w, lastTick, listing, cfg.guests[i]);
      PlanGuestFrame(cfg, env, w, lastTick, listing, cfg.guests[i]);
      if r.Ok? { PlanFrame(cfg, env, r.w, lastTick, listing, i + 1, AddPlan(p, r.value)); }
    }
  }

  lemma {:induction false} ExecuteAllFrame(cfg: Config, env: Env, w: World, names: seq<string>,
                                           actions: map<string, Planned>, failed: nat)
    ensures var w' := ExecuteAll(cfg, env, w, names, actions, failed).0;
      w'.kv == w.kv && AddsOnlyGuestCalls(w, w') && AddsOnlyGuestEvents(w, w')
    decreases |names|
  {
    if names != [] {
      if names[0] in actions {
        var r := Execute(cfg, env, w, actions[names[0]]);
        ExecuteFrame(cfg, env, w, actions[names[0]]);
        ExecuteAllFrame(cfg, env, r.w, names[1..], actions, if r.Fail? then failed + 1 else failed);
      } else {
        ExecuteAllFrame(cfg, env, w, names[1..], actions, failed);
      }
    }
  }

  /** A guest pass touches last_tick, and that only by completing. */
  lemma GuestPassFrame(cfg: Config, env: Env, w: World, lastTick: Option<int>, listing: map<string, bool>)
    ensures var r := GuestPass(cfg, env, w, lastTick, listing);
      && AddsOnlyGuestCalls(w, r.w) && AddsOnlyGuestEvents(w, r.w)
      && (r.Ok? ==> r.value && r.w.kv == w.kv[LastTick := env.now])
      && (r.Fail? ==> r.w.kv == w.kv)
  {
    hide PlanFrom, ExecuteAll;
    var p := PlanFrom(cfg, env, w, lastTick, listing, 0, Plans(map[], map[]));
    PlanFrame(cfg, env, w, lastTick, listing, 0, Plans(map[], map[]));
    if p.Ok? {
      var (w2, failedStops) := ExecuteAll(cfg, env, p.w, Reverse(cfg.order), p.value.stops, 0);
      ExecuteAllFrame(cfg, env, p.w, Reverse(cfg.order), p.value.stops, 0);
      ExecuteAllFrame(cfg, env, w2, cfg.order, p.value.starts, failedStops);
    }
  }

  lemma ProceedFrame(cfg: Config, env: Env, w: World, listing: map<string, bool>)
    ensures Touches(w, ProceedShutdown(cfg, env, w, listing).w, {DangerGrace, PostponedNotified})
  {
    hide StopAll, StopNode, Reverse;
    var w1 := DeleteState(env, w, PostponedNotified).w;
    var w2 := DeleteState(env, w1, DangerGrace).w;
    var r := StopAll(cfg, env, w2, Reverse(cfg.order), listing);
    StopAllFrame(cfg, env, w2, Reverse(cfg.order), listing);
    StopNodeFrame(cfg, env, r.w);
  }

  lemma ShutdownFrame(cfg: Config, env: Env, w: World, listing: map<string, bool>, bypass: bool)
    ensures Touches(w, ShutdownHost(cfg, env, w, listing, bypass).w, {DangerGrace, PostponedNotified})
  {
    hide TaskCheck, ProceedShutdown;
    var r := TaskCheck(cfg, env, w, bypass);
    TaskCheckFrame(cfg, env, w, bypass);
    ProceedFrame(cfg, env, r.w, listing);
  }

  const HOST_KEYS: set<Key> := WAKE_KEYS + {LastWakeOK, DangerGrace, PostponedNotified}

  /** Acting on the host touches neither last_tick nor the warning mark. */
  lemma ActFrame(cfg: Config, env: Env, w: World, wish: Wish, bypass: bool, listing: map<string, bool>)
    ensures Touches(w, ActOnHost(cfg, env, w, wish, bypass, listing).w, HOST_KEYS)
  {
    hide ClearWakeState, CompleteWake, ShutdownHost, PursueWake, Touches;
    var c := ClearWakeState(env, w);
    ClearWakeFrame(env, w);
    var s := ShutdownHost(cfg, env, c.w, listing, bypass);
    ShutdownFrame(cfg, env, c.w, listing, bypass);
    TouchesJoin(w, c.w, s.w, WAKE_KEYS, {DangerGrace, PostponedNotified}, HOST_KEYS);
    var d := CompleteWake(env, w);
    CompleteWakeFrame(env, w);
    var e := ClearWakeState(env, d.w);
    ClearWakeFrame(env, d.w);
    TouchesJoin(w, d.w, e.w, {LastWakeOK}, WAKE_KEYS, HOST_KEYS);
    var p := PursueWake(cfg, env, w);
    PursueWakeFrame(cfg, env, w);
    TouchesSelf(w);
    TouchesSelf(c.w);
    TouchesSelf(d.w);
    TouchesJoin(w, c.w, c.w, WAKE_KEYS, {}, HOST_KEYS);
    TouchesJoin(w, d.w, d.w, {LastWakeOK}, {}, HOST_KEYS);
    TouchesSelf(p.w);
    TouchesJoin(w, p.w, p.w, WAKE_KEYS, {}, HOST_KEYS);
    TouchesJoin(w, w, w, {}, {}, HOST_KEYS);
  }

  lemma TouchesSelf(w: World)
    ensures Touches(w, w, {})
  {
  }

  // ----- the stages of a tick -----

  /** The states between the stages of a tick that got at least that far. */
  datatype Stages = NoIntro
                  | NoSafety(intro: Intro, w1: World)
                  | NoWish(intro: Intro, w1: World, safety: Safety, w2: World)
                  | Acting(intro: Intro, w1: World, safety: Safety, w2: World, wish: Wish, w3: World)

  /** A tick stops in one of its stages or acts on the host and, when that leaves the
      host ready, passes over the guests. */
  ghost predicate RanAs(cfg: Config, env: Env, w: World, st: Stages, r: Res<bool>) {
    match st
    case NoIntro => (!env.trusted || Prologue(cfg, env, w).Fail?) && OnlyOps(w, r.w) && (r.Ok? ==> !r.value)
    case NoSafety(intro, w1) =>
      && env.trusted && Prologue(cfg, env, w) == Ok(intro, w1) && OnlyOps(w, w1) && r.Fail?
      && WeatherSafety(cfg, env, w1).Fail? && r.w == WeatherSafety(cfg, env, w1).w
    case NoWish(intro, w1, safety, w2) =>
      && env.trusted && Prologue(cfg, env, w) == Ok(intro, w1) && OnlyOps(w, w1)
      && WeatherSafety(cfg, env, w1) == Ok(safety, w2)
      && DecideHost(cfg, env, w2, intro.wantsOn, safety).Fail? && r.Fail? && OnlyOps(w2, r.w)
    case Acting(intro, w1, safety, w2, wish, w3) =>
      && env.trusted && (env.reachable ==> env.listing.Some?) && OnlyOps(w, w1)
      && Prologue(cfg, env, w) == Ok(intro, w1)
      && intro.lastTick == (if LastTick in w.kv then Some(w.kv[LastTick]) else None)
      && WeatherSafety(cfg, env, w1) == Ok(safety, w2)
      && OnlyOps(w2, w3) && DecideHost(cfg, env, w2, intro.wantsOn, safety) == Ok(wish, w3)
      && var a := ActOnHost(cfg, env, w3, wish, safety.bypass, Listing(env));
         if a.Fail? then r == Fail(a.w)
         else if !env.reachable || a.value then r == Ok(false, a.w)
         else r == GuestPass(cfg, env, a.w, intro.lastTick, Listing(env))
  }

  lemma TickStages(cfg: Config, env: Env, w: World) returns (st: Stages)
    ensures RanAs(cfg, env, w, st, Tick(cfg, env, w))
  {
    st := NoIntro;
    PrologueFrame(cfg, env, w);
    PrologueListing(cfg, env, w);
    hide Prologue, WeatherSafety, DecideHost, ActOnHost, GuestPass, Listing;
    var p := Prologue(cfg, env, w);
    if env.trusted && p.Ok? {
      var s := WeatherSafety(cfg, env, p.w);
      st := NoSafety(p.value, p.w);
      if s.Ok? {
        var d := DecideHost(cfg, env, s.w, p.value.wantsOn, s.value);
        DecideHostFrame(cfg, env, s.w, p.value.wantsOn, s.value);
        st := if d.Ok? then Acting(p.value, p.w, s.value, s.w, d.value, d.w) else NoWish(p.value, p.w, s.value, s.w);
      }
    }
  }

  lemma PrologueListing(cfg: Config, env: Env, w: World)
    ensures Prologue(cfg, env, w).Ok? && env.reachable ==> env.listing.Some?
  {
  }

  // ----- what a tick decides before it acts -----

  datatype Decision = Decision(intro: Intro, safety: Safety, wish: Wish)

  /** The stages up to the decision about the host. */
  function Decided(cfg: Config, env: Env, w: World): Res<Decision> {
    var (intro, w1) :- Prologue(cfg, env, w);
    var (safety, w2) :- WeatherSafety(cfg, env, w1);
    var (wish, w3) :- DecideHost(cfg, env, w2, intro.wantsOn, safety);
    Ok(Decision(intro, safety, wish), w3)
  }

  /** A tick that got no further made no call, recorded nothing and touched at most the
      weather marks; any other acted on the host from such a state. */
  ghost predicate Acted(cfg: Config, env: Env, w: World, r: Res<bool>) {
    var d := Decided(cfg, env, w);
    && Touches(w, d.w, WEATHER_KEYS) && SameLogs(w, d.w)
    && if !env.trusted || d.Fail? then
         (r.Ok? ==> !r.value) && Touches(w, r.w, WEATHER_KEYS) && SameLogs(w, r.w)
       else
         var a := ActOnHost(cfg, env, d.w, d.value.wish, d.value.safety.bypass, Listing(env));
         if a.Fail? then r == Fail(a.w)
         else if !env.reachable || a.value then r == Ok(false, a.w)
         else r == GuestPass(cfg, env, a.w, d.value.intro.lastTick, Listing(env))
  }

  lemma DecidedFrame(cfg: Config, env: Env, w: World)
    ensures var d := Decided(cfg, env, w); Touches(w, d.w, WEATHER_KEYS) && SameLogs(w, d.w)
  {
    hide Prologue, WeatherSafety, DecideHost;
    var p := Prologue(cfg, env, w);
    PrologueFrame(cfg, env, w);
    var s := WeatherSafety(cfg, env, p.w);
    WeatherSafetyFrame(cfg, env, p.w);
    if p.Ok? && s.Ok? { DecideHostFrame(cfg, env, s.w, p.value.wantsOn, s.value); }
  }

  lemma TickActs(cfg: Config, env: Env, w: World)
    ensures Acted(cfg, env, w, Tick(cfg, env, w))
  {
    DecidedFrame(cfg, env, w);
    hide Prologue, WeatherSafety, DecideHost, ActOnHost, GuestPass, Listing, Touches;
    TouchesSelf(w);
    TouchesJoin(w, w, w, {}, {}, WEATHER_KEYS);
  }
}
