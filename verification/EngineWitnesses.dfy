/** Concrete runs on which the engine does what one might not expect. */
module EngineWitnesses {
  import opened Prelude
  import opened Schedules
  import opened Overrides
  import opened Guests
  import opened EngineSpec
  import opened EngineFrames
  import opened EngineSafety
  import opened EngineShutdown
  import opened EngineGrace
  import opened EngineGuests
  import opened EngineRetries
  import opened EngineWake
  import opened EngineWakeExact
  import opened EngineDecides
  import Weather

  function Guest(name: string): GuestConfig { GuestConfig(name, false, "", []) }

  /** Guests without a schedule, on a host without one: overrides alone decide. */
  function Lab(names: seq<string>): Config {
    Config(false, Zone(d => d * DAY, t => t / DAY), seq(|names|, i requires 0 <= i < |names| => Guest(names[i])),
           map[], "", names, 3, 60, true, 60, 60)
  }

  function Seen(now: int, level: Weather.Level, listing: map<string, bool>, rows: seq<Override>, tasks: nat,
                  ok: nat -> bool): Env
  {
    Env(now, true, level, true, Some(listing), rows, Some(tasks), ok)
  }

  lemma NoRows(target: string, t: int, actions: set<Action>)
    ensures EffectiveOverrideOf([], target, t, actions) == None
  {
  }

  // ----- a refused stop starts the grace again -----

  function RefusedStop(): Env { Seen(60, Weather.Danger, map["a" := true], [], 1, n => n != 9) }

  /** Guest a is running, a task is active, Danger was first postponed at 0 and the grace
      is 60: the tick at 60 stops at the refused shutdown of a, the mark is gone, and the
      tick at 61, in which nothing fails, is postponed again. */
  lemma RefusedStopRestartsGrace()
    ensures var cfg, w := Lab(["a"]), World(map[DangerGrace := 0], [], [], 0);
      var again := RefusedStop().(now := 61, ok := n => true);
      var w1 := NextTick(cfg, RefusedStop(), w).w;
      var w2 := NextTick(cfg, again, w1).w;
      && !HostTold(w, w1) && DangerGrace !in w1.kv
      && w2.calls == w1.calls && DangerGrace in w2.kv && w2.kv[DangerGrace] == 61
  {
    var cfg, w, env := Lab(["a"]), World(map[DangerGrace := 0], [], [], 0), RefusedStop();
    var again := env.(now := 61, ok := n => true);
    RefusedStopReached();
    assert DangerTick(cfg, again) by { NoRows(HOST, 61, {IgnoreWeather}); }
    hide BeforeStops, NextTick, StopsSucceed, HostTold, DangerTick;
    FailedStopRestartsGrace(cfg, env, w, [], again);
  }

  lemma RefusedStopReached()
    ensures var cfg, w, env := Lab(["a"]), World(map[DangerGrace := 0], [], [], 0), RefusedStop();
      var b := BeforeStops(cfg, env, w.(ops := 0));
      b.Ok? && b.value && !StopsSucceed(cfg, env, b.w, Reverse(cfg.order))
  {
    var cfg, w, env := Lab(["a"]), World(map[DangerGrace := 0], [], [], 0), RefusedStop();
    RefusedIntro(cfg, w);
    RefusedChecks(cfg, w.(ops := 2));
    assert Reverse(["a"]) == ["a"];
    assert MustStop(cfg, Listing(env), "a");
    assert StopList(cfg, Listing(env), ["a"]) == ["a"];
    hide Prologue, WeatherSafety, ClearWakeState, ClearForStops, MustStop, StopList, Reverse, Listing;
    assert !env.ok(9);
  }

  lemma RefusedIntro(cfg: Config, w: World)
    requires cfg == Lab(["a"]) && w == World(map[DangerGrace := 0], [], [], 0)
    ensures Prologue(cfg, RefusedStop(), w) == Ok(Intro(None, false), w.(ops := 2))
  {
    NoRows("a", 60, ANY);
    NoSchedule(cfg, cfg.guests[0], 60, 60);
    hide EffectiveOverrideOf, IsOn;
    assert AnyWantsOn(cfg, RefusedStop(), w.(ops := 2), 1) == Ok(false, w.(ops := 2));
  }

  lemma RefusedChecks(cfg: Config, w: World)
    requires cfg == Lab(["a"]) && w == World(map[DangerGrace := 0], [], [], 2)
    ensures WeatherSafety(cfg, RefusedStop(), w) == Ok(Safety(true, true), w.(ops := 3))
    ensures var c := ClearWakeState(RefusedStop(), w.(ops := 3));
      c.Ok? && var b := ClearForStops(cfg, RefusedStop(), c.w, true); b.Ok? && b.value && b.w.ops == 9
  {
    NoRows(HOST, 60, {IgnoreWeather});
    hide EffectiveOverrideOf;
    var c := ClearWakeState(RefusedStop(), w.(ops := 3));
    assert c.Ok? && c.w.ops == 6 && DangerGrace in c.w.kv && c.w.kv[DangerGrace] == 0;
    hide ClearWakeState, WeatherSafety;
  }

  // ----- overrides on guests without a schedule -----

  function Standing(id: int, target: string, until: Option<int>, stamp: int): Override {
    Override(id, target, On, until, "user:a", stamp, None)
  }

  lemma NoSchedule(cfg: Config, g: GuestConfig, from: int, now: int)
    requires cfg.schedules == map[]
    ensures CrossingsOf(cfg.zone, ScheduleOf(cfg, g.schedule), from, now) == []
    ensures !IsOn(cfg.zone, ScheduleOf(cfg, g.schedule), now)
  {
  }

  /** No row of the target is active: the query answers None. */
  lemma NoneActive(rows: seq<Override>, target: string, t: int, actions: set<Action>)
    requires ValidRows(rows)
    requires forall r :: r in rows && r.target == target && r.action in actions ==> !ActiveAt(r, t)
    ensures EffectiveOverrideOf(rows, target, t, actions) == None
  {
    var e := EffectiveOverrideOf(rows, target, t, actions);
    if e.Some? { EffectiveExact(rows, target, t, actions, e.value); }
  }

  /** The only row of the host decides while it is active. */
  lemma HostRowDecides(rows: seq<Override>, t: int, o: Override)
    requires ValidRows(rows) && o in rows && o.target == HOST && o.action == On && ActiveAt(o, t)
    requires forall r :: r in rows && r.target == HOST ==> r == o
    ensures EffectiveOverrideOf(rows, HOST, t, POWER) == Some(o)
  {
    forall r ensures r !in NewerMatches(rows, HOST, t, POWER, o) { }
    assert NewerMatches(rows, HOST, t, POWER, o) == {};
    EffectiveExact(rows, HOST, t, POWER, o);
  }

  // ----- a forced shutdown leaves guests stopped -----

  const STANDING := [Standing(1, "host", None, 0), Standing(2, "a", None, 0)]

  function Storm(): Env { Seen(100, Weather.Danger, map["a" := true], STANDING, 0, n => true) }

  function AfterStorm(): Env { Seen(200, Weather.Normal, map["a" := false], STANDING, 0, n => true) }

  /** Host and guest a have a standing "on", and a runs when Danger strikes at 100: a is stopped, then
      the node. At 200 the host is back, the pass completes, and a is still stopped although
      it should be on. */
  lemma ShutdownLeavesGuestStopped()
    ensures var cfg, w := Lab(["a"]), World(map[LastTick := 0], [], [], 0);
      var w1 := NextTick(cfg, Storm(), w).w;
      var r2 := NextTick(cfg, AfterStorm(), w1);
      var after := Apply(AfterStorm().listing.value, NewCalls(w1, r2.w));
      && HostTold(w, w1) && |w1.calls| > 0 && w1.calls[0] == GuestCall("a", false, TaskOK)
      && Completed(r2) && Target(cfg, AfterStorm().rows, cfg.guests[0], AfterStorm().now) == Wish(true, true)
      && "a" in after && !after["a"]
  {
    var cfg, w := Lab(["a"]), World(map[LastTick := 0], [], [], 0);
    var w1 := NextTick(cfg, Storm(), w).w;
    StormStops(cfg, w);
    CalmReturns(cfg, w1);
    StandingStands(cfg);
    hide NextTick, HostTold, Apply, Trig, Target;
    TargetReachedExactly(cfg, AfterStorm(), w1, 0);
  }

  lemma StandingAt(t: int)
    requires 0 <= t
    ensures EffectiveOverride(STANDING, "a", t) == Some(STANDING[1])
    ensures EffectiveOverrideOf(STANDING, HOST, t, POWER) == Some(STANDING[0])
  {
    NewestRowDecides(STANDING, t, STANDING[1]);
    hide EffectiveOverrideOf;
    HostRowDecides(STANDING, t, STANDING[0]);
  }

  lemma StandingStands(cfg: Config)
    requires cfg == Lab(["a"])
    ensures !Trig(cfg, AfterStorm(), Some(0), cfg.guests[0])
    ensures Target(cfg, AfterStorm().rows, cfg.guests[0], AfterStorm().now) == Wish(true, true)
  {
    StandingAt(0);
    StandingAt(200);
    NoSchedule(cfg, cfg.guests[0], 0, 200);
    hide EffectiveOverride, CrossingsOf, IsOn;
  }

  lemma StormStops(cfg: Config, w: World)
    requires cfg == Lab(["a"]) && w == World(map[LastTick := 0], [], [], 0)
    ensures var w1 := NextTick(cfg, Storm(), w).w;
      && HostTold(w, w1) && |w1.calls| > 0 && w1.calls[0] == GuestCall("a", false, TaskOK)
      && LastTickOf(w1.kv) == Some(0)
  {
    NoneActive(STANDING, HOST, 100, {IgnoreWeather});
    assert Reverse(["a"]) == ["a"];
    assert MustStop(cfg, Listing(Storm()), "a");
    assert StopList(cfg, Listing(Storm()), ["a"]) == ["a"];
    hide Tick, HostTold, StopList, Reverse, Listing;
    DangerDecides(cfg, Storm(), w);
    GuestsStopBeforeHost(cfg, Storm(), w);
    var st := TickTold(cfg, Storm(), w.(ops := 0));
    LastTickMoves(cfg, Storm(), w);
  }

  lemma CalmReturns(cfg: Config, w: World)
    requires cfg == Lab(["a"])
    ensures Completed(NextTick(cfg, AfterStorm(), w))
  {
    StandingAt(200);
    hide EffectiveOverrideOf, NextTick;
    HostWantedOn(cfg, AfterStorm(), w, STANDING[0]);
  }

  lemma HostWantedOn(cfg: Config, env: Env, w: World, o: Override)
    requires AllOK(env) && env.trusted && env.reachable && env.listing.Some? && env.level == Weather.Normal
    requires EffectiveOverrideOf(env.rows, HOST, env.now, POWER) == Some(o) && o.action == On
    ensures Completed(NextTick(cfg, env, w))
  {
    hide NextTick, Prologue, IsOn, EffectiveOverrideOf;
    CalmTickCompletes(cfg, env, w);
  }

  // ----- a pass that failed part-way leaves a guest where an ended override put it -----

  const EVENING := [Standing(1, "host", None, 0), Standing(2, "a", Some(150), 10), Standing(3, "b", Some(150), 10)]

  /** The seventeenth operation of this tick is the start of b. */
  function FirstTry(): Env { Seen(100, Weather.Normal, map["a" := false, "b" := false], EVENING, 0, n => n != 17) }

  function Retry(): Env { Seen(200, Weather.Normal, map["a" := true, "b" := false], EVENING, 0, n => true) }

  /** Guests a and b get an "on" from 10 to 150. The pass at 100 starts a, but the start of b
      is refused, so last_tick stays at 0 for a retry. At 200 the override is over at both
      ends of the window: the pass completes, and a keeps running although it should be off. */
  lemma EndedOverrideLeavesGuestRunning()
    ensures var cfg, w := Lab(["a", "b"]), World(map[LastTick := 0], [], [], 0);
      var r1 := NextTick(cfg, FirstTry(), w);
      var r2 := NextTick(cfg, Retry(), r1.w);
      var after := Apply(Retry().listing.value, NewCalls(r1.w, r2.w));
      && r1.Fail? && LastTickOf(r1.w.kv) == Some(0)
      && r1.w.calls == [GuestCall("a", true, TaskOK), GuestCall("b", true, Rejected)]
      && Completed(r2) && Target(cfg, Retry().rows, cfg.guests[0], Retry().now) == Wish(false, true)
      && "a" in after && after["a"]
  {
    var cfg, w := Lab(["a", "b"]), World(map[LastTick := 0], [], [], 0);
    var w1 := NextTick(cfg, FirstTry(), w).w;
    FirstTryFails(cfg, w);
    hide NextTick, Apply, Target, NewCalls;
    RetryMisses(cfg, w1);
  }

  lemma RetryMisses(cfg: Config, w: World)
    requires cfg == Lab(["a", "b"]) && LastTickOf(w.kv) == Some(0)
    ensures var r := NextTick(cfg, Retry(), w);
      var after := Apply(Retry().listing.value, NewCalls(w, r.w));
      && Completed(r) && Target(cfg, Retry().rows, cfg.guests[0], Retry().now) == Wish(false, true)
      && "a" in after && after["a"]
  {
    RetryCompletes(cfg, w);
    OverrideOver(cfg);
    LabIsGood(cfg);
    hide NextTick, Apply, Trig, Target, NewCalls, GoodConfig;
    TargetReachedExactly(cfg, Retry(), w, 0);
  }

  lemma LabIsGood(cfg: Config)
    requires cfg == Lab(["a", "b"])
    ensures GoodConfig(cfg)
  {
    assert cfg.order[0] == "a" && cfg.order[1] == "b";
  }

  lemma OverrideOver(cfg: Config)
    requires cfg == Lab(["a", "b"])
    ensures !Trig(cfg, Retry(), Some(0), cfg.guests[0])
    ensures Target(cfg, Retry().rows, cfg.guests[0], Retry().now) == Wish(false, true)
  {
    NoneActive(EVENING, "a", 0, ANY);
    NoneActive(EVENING, "a", 200, ANY);
    NoSchedule(cfg, cfg.guests[0], 0, 200);
  }

  lemma RetryCompletes(cfg: Config, w: World)
    requires cfg == Lab(["a", "b"])
    ensures Completed(NextTick(cfg, Retry(), w))
  {
    HostStands(200);
    hide EffectiveOverrideOf, NextTick;
    HostWantedOn(cfg, Retry(), w, EVENING[0]);
  }

  lemma HostStands(t: int)
    requires 0 <= t
    ensures EffectiveOverrideOf(EVENING, HOST, t, POWER) == Some(EVENING[0])
  {
    hide EffectiveOverrideOf;
    HostRowDecides(EVENING, t, EVENING[0]);
  }

  lemma FirstTryFails(cfg: Config, w: World)
    requires cfg == Lab(["a", "b"]) && w == World(map[LastTick := 0], [], [], 0)
    ensures var r := NextTick(cfg, FirstTry(), w);
      && r.Fail? && LastTickOf(r.w.kv) == Some(0)
      && r.w.calls == [GuestCall("a", true, TaskOK), GuestCall("b", true, Rejected)]
  {
    var env := FirstTry();
    FirstTryReachesGuests(cfg, w);
    hide NextTick, GuestPass;
    var w1 := w.(ops := 10);
    FirstPassFails(cfg, w1);
    LastTickMoves(cfg, env, w);
  }

  lemma FirstTryReachesGuests(cfg: Config, w: World)
    requires cfg == Lab(["a", "b"]) && w == World(map[LastTick := 0], [], [], 0)
    ensures NextTick(cfg, FirstTry(), w) == GuestPass(cfg, FirstTry(), w.(ops := 10), Some(0), FirstTry().listing.value)
  {
    FirstIntro(cfg, w);
    FirstReconcile(cfg, w);
    hide NextTick, Prologue, ReconcileHost, GuestPass;
    TickReachesGuests(cfg, FirstTry(), w, Intro(Some(0), true), w.(ops := 2), w.(ops := 10));
  }

  lemma TickReachesGuests(cfg: Config, env: Env, w: World, intro: Intro, w1: World, w2: World)
    requires env.trusted && env.reachable && env.listing.Some? && w.ops == 0
    requires Prologue(cfg, env, w) == Ok(intro, w1)
    requires ReconcileHost(cfg, env, w1, intro.wantsOn, env.listing.value) == Ok(false, w2)
    ensures NextTick(cfg, env, w) == GuestPass(cfg, env, w2, intro.lastTick, env.listing.value)
  {
    hide Prologue, ReconcileHost, GuestPass;
    assert w.(ops := 0) == w;
  }

  lemma FirstIntro(cfg: Config, w: World)
    requires cfg == Lab(["a", "b"]) && w == World(map[LastTick := 0], [], [], 0)
    ensures Prologue(cfg, FirstTry(), w) == Ok(Intro(Some(0), true), w.(ops := 2))
  {
    NewestRowDecides(EVENING, 100, EVENING[1]);
    hide EffectiveOverrideOf, IsOn;
    assert AnyWantsOn(cfg, FirstTry(), w.(ops := 1), 0) == Ok(true, w.(ops := 2));
  }

  lemma FirstReconcile(cfg: Config, w: World)
    requires w == World(map[LastTick := 0], [], [], 0)
    ensures ReconcileHost(cfg, FirstTry(), w.(ops := 2), true, FirstTry().listing.value) == Ok(false, w.(ops := 10))
  {
    FirstSafety(cfg, w);
    FirstWish(cfg, w);
    FirstAct(cfg, w);
    hide WeatherSafety, DecideHost, ActOnHost;
  }

  lemma FirstSafety(cfg: Config, w: World)
    requires w == World(map[LastTick := 0], [], [], 0)
    ensures WeatherSafety(cfg, FirstTry(), w.(ops := 2)) == Ok(Safety(false, false), w.(ops := 5))
  {
    assert w.kv - {WarningSince} == w.kv && w.kv - {DangerSince} == w.kv && w.kv - {DangerGrace} == w.kv;
  }

  lemma FirstWish(cfg: Config, w: World)
    ensures DecideHost(cfg, FirstTry(), w.(ops := 5), true, Safety(false, false)) == Ok(Wish(true, true), w.(ops := 6))
  {
    HostStands(100);
    hide EffectiveOverrideOf, IsOn;
  }

  lemma FirstAct(cfg: Config, w: World)
    requires w == World(map[LastTick := 0], [], [], 0)
    ensures ActOnHost(cfg, FirstTry(), w.(ops := 6), Wish(true, true), false, FirstTry().listing.value)
         == Ok(false, w.(ops := 10))
  {
    hide PursueWake, ShutdownHost;
    assert w.kv - {WakeAttempts} == w.kv && w.kv - {WakeLastSent} == w.kv && w.kv - {WakeFailed} == w.kv;
    assert CompleteWake(FirstTry(), w.(ops := 6)) == Ok((), w.(ops := 7));
    assert ClearWakeState(FirstTry(), w.(ops := 7)) == Ok((), w.(ops := 10));
  }

  lemma FirstPassFails(cfg: Config, w: World)
    requires cfg == Lab(["a", "b"]) && w == World(map[LastTick := 0], [], [], 10)
    ensures var r := GuestPass(cfg, FirstTry(), w, Some(0), FirstTry().listing.value);
      r.Fail? && r.w.calls == [GuestCall("a", true, TaskOK), GuestCall("b", true, Rejected)]
  {
    FirstPlans(cfg, w);
    var p := PlanFrom(cfg, FirstTry(), w, Some(0), FirstTry().listing.value, 0, Plans(map[], map[]));
    hide PlanFrom, ExecuteAll, Reverse;
    FirstExecution(cfg, w.(ops := 14), p.value);
  }

  lemma FirstPlans(cfg: Config, w: World)
    requires cfg == Lab(["a", "b"]) && w == World(map[LastTick := 0], [], [], 10)
    ensures var a, b := Planned("a", true, "user:a"), Planned("b", true, "user:a");
      PlanFrom(cfg, FirstTry(), w, Some(0), FirstTry().listing.value, 0, Plans(map[], map[]))
        == Ok(Plans(map["a" := a, "b" := b], map[]), w.(ops := 14))
  {
    var a, b := Planned("a", true, "user:a"), Planned("b", true, "user:a");
    PlansOn(cfg, w, 0, "a");
    PlansOn(cfg, w.(ops := 12), 1, "b");
    assert AddPlan(Plans(map[], map[]), Some(a)) == Plans(map["a" := a], map[]);
    assert AddPlan(Plans(map["a" := a], map[]), Some(b)) == Plans(map["a" := a, "b" := b], map[]);
    hide PlanGuest, AddPlan;
    TwoPlans(cfg, FirstTry(), w, FirstTry().listing.value, Some(a), Some(b));
  }

  lemma TwoPlans(cfg: Config, env: Env, w: World, listing: map<string, bool>, a: Option<Planned>, b: Option<Planned>)
    requires |cfg.guests| == 2 && w.ops == 10
    requires PlanGuest(cfg, env, w, Some(0), listing, cfg.guests[0]) == Ok(a, w.(ops := 12))
    requires PlanGuest(cfg, env, w.(ops := 12), Some(0), listing, cfg.guests[1]) == Ok(b, w.(ops := 14))
    ensures var empty := Plans(map[], map[]);
      PlanFrom(cfg, env, w, Some(0), listing, 0, empty) == Ok(AddPlan(AddPlan(empty, a), b), w.(ops := 14))
  {
    hide PlanGuest, AddPlan;
    var p := AddPlan(Plans(map[], map[]), a);
    assert PlanFrom(cfg, env, w.(ops := 12), Some(0), listing, 1, p) == Ok(AddPlan(p, b), w.(ops := 14));
  }

  lemma PlansStart(cfg: Config, env: Env, w: World, listing: map<string, bool>, g: GuestConfig, o: Override)
    requires cfg.schedules == map[] && !g.alwaysOn && env.ok(w.ops) && env.ok(w.ops + 1)
    requires g.name in listing && !listing[g.name] && o.action == On
    requires EffectiveOverride(env.rows, g.name, env.now) == Some(o)
    requires EffectiveOverride(env.rows, g.name, 0) == None
    ensures PlanGuest(cfg, env, w, Some(0), listing, g)
         == Ok(Some(Planned(g.name, true, o.createdBy)), w.(ops := w.ops + 2))
  {
    NoSchedule(cfg, g, 0, env.now);
    hide EffectiveOverrideOf, IsOn, CrossingsOf, ScheduleOf;
    assert Triggered(cfg, env, w.(ops := w.ops + 1), Some(0), g, Some(o)) == Ok(true, w.(ops := w.ops + 2));
    hide Triggered;
  }

  lemma PlansOn(cfg: Config, w: World, i: nat, name: string)
    requires cfg == Lab(["a", "b"]) && i < 2 && name == ["a", "b"][i] && w.ops + 2 <= 17
    ensures PlanGuest(cfg, FirstTry(), w, Some(0), FirstTry().listing.value, cfg.guests[i])
         == Ok(Some(Planned(name, true, "user:a")), w.(ops := w.ops + 2))
  {
    NewestRowDecides(EVENING, 100, EVENING[i + 1]);
    NoneActive(EVENING, name, 0, ANY);
    hide EffectiveOverrideOf, PlanGuest;
    PlansStart(cfg, FirstTry(), w, FirstTry().listing.value, cfg.guests[i], EVENING[i + 1]);
  }

  lemma FirstExecution(cfg: Config, w: World, p: Plans)
    requires cfg == Lab(["a", "b"]) && w.calls == [] && w.ops == 14
    requires p == Plans(map["a" := Planned("a", true, "user:a"), "b" := Planned("b", true, "user:a")], map[])
    ensures var s := ExecuteAll(cfg, FirstTry(), w, Reverse(cfg.order), p.stops, 0);
      var r := ExecuteAll(cfg, FirstTry(), s.0, cfg.order, p.starts, s.1);
      r.1 == 1 && r.0.calls == [GuestCall("a", true, TaskOK), GuestCall("b", true, Rejected)]
  {
    var env := FirstTry();
    assert Reverse(["a", "b"]) == ["b", "a"];
    assert ExecuteAll(cfg, env, w, ["b", "a"], p.stops, 0) == (w, 0);
    var a := Execute(cfg, env, w, p.starts["a"]);
    assert a.Ok? && a.w.ops == 17 && a.w.calls == [GuestCall("a", true, TaskOK)];
    var b := Execute(cfg, env, a.w, p.starts["b"]);
    assert b.Fail? && b.w.calls == [GuestCall("a", true, TaskOK), GuestCall("b", true, Rejected)];
    assert ["a", "b"][1..] == ["b"];
    assert ExecuteAll(cfg, env, a.w, ["b"], p.starts, 0) == (b.w, 1);
  }

  // ----- a guest that is not listed when its trigger comes -----

  const HOSTON := [Standing(1, "host", None, 0)]

  function Unlisted(): Env { Seen(100, Weather.Normal, map[], HOSTON, 0, n => true) }

  function Listed(): Env { Seen(200, Weather.Normal, map["a" := true], HOSTON, 0, n => true) }

  /** The first pass after an empty store is triggered for every guest, but a is not listed.
      It completes, so last_tick moves on; at 200 a is listed as running, untriggered, and
      keeps running although it should be off. */
  lemma UnlistedGuestLosesTrigger()
    ensures var cfg, w := Lab(["a"]), World(map[], [], [], 0);
      var r1 := NextTick(cfg, Unlisted(), w);
      var r2 := NextTick(cfg, Listed(), r1.w);
      var after := Apply(Listed().listing.value, NewCalls(r1.w, r2.w));
      && Completed(r1) && Trig(cfg, Unlisted(), LastTickOf(w.kv), cfg.guests[0])
      && Completed(r2) && Target(cfg, HOSTON, cfg.guests[0], 200) == Wish(false, true)
      && "a" in after && after["a"]
  {
    var cfg, w := Lab(["a"]), World(map[], [], [], 0);
    var w1 := NextTick(cfg, Unlisted(), w).w;
    UnlistedPasses(cfg, w);
    SetForOff(cfg);
    assert Trig(cfg, Unlisted(), None, cfg.guests[0]);
    hide NextTick, Apply, Target, Trig;
    ListedPasses(cfg, w1);
    TargetReachedExactly(cfg, Listed(), w1, 0);
  }

  lemma UnlistedPasses(cfg: Config, w: World)
    requires cfg == Lab(["a"])
    ensures var r := NextTick(cfg, Unlisted(), w); Completed(r) && LastTickOf(r.w.kv) == Some(100)
  {
    HostOnRow(100);
    hide EffectiveOverrideOf, NextTick;
    HostWantedOn(cfg, Unlisted(), w, HOSTON[0]);
    LastTickMoves(cfg, Unlisted(), w);
  }

  lemma ListedPasses(cfg: Config, w: World)
    requires cfg == Lab(["a"])
    ensures Completed(NextTick(cfg, Listed(), w))
  {
    HostOnRow(200);
    hide EffectiveOverrideOf, NextTick;
    HostWantedOn(cfg, Listed(), w, HOSTON[0]);
  }

  lemma HostOnRow(t: int)
    requires 0 <= t
    ensures EffectiveOverrideOf(HOSTON, HOST, t, POWER) == Some(HOSTON[0])
  {
    hide EffectiveOverrideOf;
    HostRowDecides(HOSTON, t, HOSTON[0]);
  }

  lemma SetForOff(cfg: Config)
    requires cfg == Lab(["a"])
    ensures !Trig(cfg, Listed(), Some(100), cfg.guests[0])
    ensures Target(cfg, HOSTON, cfg.guests[0], 200) == Wish(false, true)
  {
    NoActiveRow(HOSTON, "a", 100);
    NoActiveRow(HOSTON, "a", 200);
    NoSchedule(cfg, cfg.guests[0], 100, 200);
    hide EffectiveOverride, CrossingsOf, IsOn;
  }

  // ----- one wake recorded as two successes -----

  /** The ninth operation of this tick removes the number of attempts. */
  function Arrival(): Env { Seen(100, Weather.Normal, map["a" := false], STANDING, 0, n => n != 9) }

  /** A wake is in progress when the host answers at 100: the success is recorded, but the
      first removal of clearWakeState fails. At 200, with nothing failing, the same wake is
      recorded as a success again. */
  lemma SuccessRecordedTwice()
    ensures var cfg, w := Lab(["a"]), World(map[LastTick := 0, WakeAttempts := 1, WakeLastSent := 50], [], [], 0);
      var w1 := NextTick(cfg, Arrival(), w).w;
      Successes(w1.events) == 1 && Successes(NextTick(cfg, AfterStorm(), w1).w.events) == 2
  {
    var cfg, w := Lab(["a"]), World(map[LastTick := 0, WakeAttempts := 1, WakeLastSent := 50], [], [], 0);
    var w1 := NextTick(cfg, Arrival(), w).w;
    ArrivalDecides(cfg, w);
    ArrivalRecords(cfg, w);
    AfterStormWanted(cfg, w1);
    hide Decided, NextTick, Recorded, Wanted;
    RecordedAgainExactly(cfg, Arrival(), w, AfterStorm());
    TickSuccess(cfg, Arrival(), w);
    TickSuccess(cfg, AfterStorm(), w1);
    assert Successes(w.events) == 0;
  }

  lemma ArrivalRecords(cfg: Config, w: World)
    requires cfg == Lab(["a"]) && w.ops == 0 && WakeLastSent in w.kv
    ensures !NoSuccess(w, NextTick(cfg, Arrival(), w).w)
  {
    ArrivalDecides(cfg, w);
    hide Decided, NextTick, NoSuccess;
    SuccessExactly(cfg, Arrival(), w);
  }

  lemma AfterStormWanted(cfg: Config, w: World)
    ensures Wanted(cfg, AfterStorm(), w)
  {
    StandingAt(200);
    hide EffectiveOverrideOf, Prologue, IsOn;
  }

  lemma ArrivalDecides(cfg: Config, w: World)
    requires cfg == Lab(["a"]) && w.ops == 0
    ensures var d := Decided(cfg, Arrival(), w.(ops := 0));
      d.Ok? && d.value.wish == Wish(true, true) && d.w.ops == 6
  {
    ArrivalIntro(cfg, w.(ops := 0));
    ArrivalCalm(cfg, Prologue(cfg, Arrival(), w.(ops := 0)).w);
    hide Prologue, WeatherSafety, DecideHost;
  }

  lemma ArrivalIntro(cfg: Config, w: World)
    requires cfg == Lab(["a"]) && w.ops == 0
    ensures var p := Prologue(cfg, Arrival(), w); p.Ok? && p.value.wantsOn && p.w.ops == 2
  {
    StandingAt(100);
    hide EffectiveOverrideOf, IsOn;
    assert AnyWantsOn(cfg, Arrival(), w.(ops := 1), 0) == Ok(true, w.(ops := 2));
  }

  lemma ArrivalCalm(cfg: Config, w: World)
    requires w.ops == 2
    ensures var s := WeatherSafety(cfg, Arrival(), w);
      && s.Ok? && s.value == Safety(false, false)
      && var d := DecideHost(cfg, Arrival(), s.w, true, s.value);
         d.Ok? && d.value == Wish(true, true) && d.w.ops == 6
  {
    StandingAt(100);
    hide EffectiveOverrideOf, IsOn;
    var s := WeatherSafety(cfg, Arrival(), w);
    assert s.Ok? && s.w.ops == 5 && s.value == Safety(false, false);
    hide WeatherSafety;
  }

  // ----- Danger forces the host off, Warning wakes it -----

  function Easing(): Env { Seen(160, Weather.Warning, map["a" := false], STANDING, 0, n => true).(reachable := false) }

  /** Danger shut the host down at 100. At 160 the level is Warning: its countdown starts
      only now, so the engine wakes the host while the safeguard is still on. */
  lemma EasingDangerWakesHost()
    ensures var cfg, w := Lab(["a"]), World(map[LastTick := 0], [], [], 0);
      var w1 := NextTick(cfg, Storm(), w).w;
      HostTold(w, w1) && NextTick(cfg, Easing(), w1).w.calls == w1.calls + [WakeCall(true)]
  {
    var cfg, w := Lab(["a"]), World(map[LastTick := 0], [], [], 0);
    StormStops(cfg, w);
    StormLeavesNoMark(cfg, w);
    hide NextTick, HostTold;
    EasingWakes(cfg, NextTick(cfg, Storm(), w).w);
  }

  lemma EasingWakes(cfg: Config, w: World)
    requires cfg == Lab(["a"])
    requires WarningSince !in w.kv && WakeLastSent !in w.kv && WakeFailed !in w.kv
    ensures NextTick(cfg, Easing(), w).w.calls == w.calls + [WakeCall(true)]
  {
    EasingWish(cfg, w);
    hide NextTick, PlainWish, Ignored;
    WokenAtWarning(cfg, Easing(), w);
  }

  lemma EasingWish(cfg: Config, w: World)
    ensures PlainWish(cfg, Easing(), w) == Wish(true, true)
  {
    StandingAt(160);
    hide EffectiveOverrideOf, Prologue, IsOn;
  }

  lemma StormLeavesNoMark(cfg: Config, w: World)
    requires cfg == Lab(["a"]) && w == World(map[LastTick := 0], [], [], 0)
    ensures var kv := NextTick(cfg, Storm(), w).w.kv;
      WarningSince !in kv && WakeAttempts !in kv && WakeLastSent !in kv && WakeFailed !in kv
  {
    StormKeepsCountdown(cfg, w);
    hide Recorded, Sends, Tick;
    var pursued, w1 := TickWake(cfg, Storm(), w.(ops := 0));
  }

  lemma StormKeepsCountdown(cfg: Config, w: World)
    requires cfg == Lab(["a"])
    ensures SameKey(w.kv, NextTick(cfg, Storm(), w).w.kv, WarningSince)
  {
    NoneActive(STANDING, HOST, 100, {IgnoreWeather});
    PrologueFrame(cfg, Storm(), w.(ops := 0));
    hide EffectiveOverrideOf, NextTick, Prologue;
    DangerForcesOff(cfg, Storm(), Prologue(cfg, Storm(), w.(ops := 0)).w);
    hide WeatherSafety;
    TickIsSafety(cfg, Storm(), w);
  }

  // ----- a schedule boundary starts a guest -----

  const DAYTIME := [Window({0, 1, 2, 3, 4, 5, 6}, 8 * 3600, 20 * 3600)]

  /** One guest, on daily from 8:00 to 20:00. */
  function Office(): Config {
    Lab([]).(guests := [GuestConfig("a", false, "day", [])], order := ["a"], schedules := map["day" := DAYTIME])
  }

  function At(now: int): Env { Seen(now, Weather.Normal, map["a" := false], HOSTON, 0, n => true) }

  /** From an empty store, the pass at 7:00 leaves the guest off; the one at 9:00 starts it. */
  lemma ScheduleStartsGuest()
    ensures var cfg, w := Office(), World(map[], [], [], 0);
      var r1 := NextTick(cfg, At(7 * 3600), w);
      var r2 := NextTick(cfg, At(9 * 3600), r1.w);
      && Completed(r1) && Completed(r2)
      && Target(cfg, HOSTON, cfg.guests[0], 7 * 3600) == Wish(false, true)
      && GuestCall("a", true, TaskOK) in NewCalls(r1.w, r2.w)
  {
    var cfg, w := Office(), World(map[], [], [], 0);
    var w1 := NextTick(cfg, At(7 * 3600), w).w;
    OfficePasses(cfg, 7 * 3600, w);
    OfficePasses(cfg, 9 * 3600, w1);
    OfficeTargets(cfg, 7 * 3600);
    OfficeTargets(cfg, 9 * 3600);
    OfficeTriggers(cfg);
    hide NextTick, Apply, Target, Trig, NewCalls, ScheduledOn;
    PassOutcome(cfg, At(9 * 3600), w1, 0);
    CalledWhenChanged(map["a" := false], NewCalls(w1, NextTick(cfg, At(9 * 3600), w1).w), "a");
  }

  lemma OfficePasses(cfg: Config, now: int, w: World)
    requires 0 <= now
    ensures var r := NextTick(cfg, At(now), w); Completed(r) && LastTickOf(r.w.kv) == Some(now)
  {
    HostOnRow(now);
    hide EffectiveOverrideOf, NextTick;
    HostWantedOn(cfg, At(now), w, HOSTON[0]);
    LastTickMoves(cfg, At(now), w);
  }

  lemma OfficeHours(now: int)
    requires 0 <= now < DAY
    ensures ScheduledOn(Office(), "day", now) <==> 8 * 3600 <= now < 20 * 3600
  {
    var z := Office().zone;
    assert z.dayOf(now) == 0;
    if 8 * 3600 <= now < 20 * 3600 { assert Covers(z, DAYTIME[0], 0, now); }
  }

  lemma OfficeTargets(cfg: Config, now: int)
    requires cfg == Office() && 0 <= now < DAY
    ensures Target(cfg, HOSTON, cfg.guests[0], now) == Wish(8 * 3600 <= now < 20 * 3600, true)
  {
    OfficeHours(now);
    NoActiveRow(HOSTON, "a", now);
    hide EffectiveOverride;
  }

  lemma OfficeTriggers(cfg: Config)
    requires cfg == Office()
    ensures Trig(cfg, At(9 * 3600), Some(7 * 3600), cfg.guests[0])
  {
    OfficeHours(7 * 3600);
    OfficeHours(9 * 3600);
    OfficeFits();
    hide Trig, ScheduledOn, EffectiveOverride, Fits;
    TriggeredExactly(cfg, At(9 * 3600), 7 * 3600, cfg.guests[0]);
  }

  lemma OfficeFits()
    ensures Fits(Office().zone, DAYTIME)
  {
    var z := Office().zone;
    forall t ensures z.mid(z.dayOf(t)) <= t < z.mid(z.dayOf(t) + 1) { assert t == t / DAY * DAY + t % DAY; }
  }

  /** A changed state means that a call changed it. */
  lemma {:induction false} CalledWhenChanged(status: map<string, bool>, calls: seq<Call>, n: string)
    requires n in status && n in Apply(status, calls) && Apply(status, calls)[n] != status[n]
    ensures GuestCall(n, Apply(status, calls)[n], TaskOK) in calls
    decreases |calls|
  {
    if calls != [] {
      var next := Applied(status, calls[0]);
      if next[n] != Apply(status, calls)[n] {
        CalledWhenChanged(next, calls[1..], n);
      } else {
        assert calls[0] == GuestCall(n, next[n], TaskOK);
      }
    }
  }

  // ----- Warning shuts the host down -----

  function Warned(now: int): Env { Seen(now, Weather.Warning, map["a" := true], STANDING, 0, n => true) }

  /** Host and guest a have a standing "on" and the countdown is 60. The first Warning, at
      100, only starts it; at 160 the host is shut down. */
  lemma WarningShutsDown()
    ensures var cfg, w := Lab(["a"]), World(map[], [], [], 0);
      var w1 := NextTick(cfg, Warned(100), w).w;
      !HostTold(w, w1) && HostTold(w1, NextTick(cfg, Warned(160), w1).w)
  {
    var cfg, w := Lab(["a"]), World(map[], [], [], 0);
    var w1 := NextTick(cfg, Warned(100), w).w;
    WarnedMark(cfg, w);
    hide NextTick, HostTold;
    FirstWarningWaits(cfg, w);
    LastWarningTells(cfg, w1);
  }

  lemma FirstWarningWaits(cfg: Config, w: World)
    requires cfg == Lab(["a"]) && WarningSince !in w.kv
    ensures !HostTold(w, NextTick(cfg, Warned(100), w).w)
  {
    WarnedWish(cfg, 100, w);
    hide NextTick, PlainWish, HostTold, Ignored, MayCutShort, ShutDown, Postponed;
    HostToldExactly(cfg, Warned(100), w);
  }

  lemma LastWarningTells(cfg: Config, w: World)
    requires cfg == Lab(["a"]) && WarningSince in w.kv && w.kv[WarningSince] == 100
    ensures HostTold(w, NextTick(cfg, Warned(160), w).w)
  {
    NoneActive(STANDING, HOST, 160, {IgnoreWeather});
    hide EffectiveOverrideOf;
    assert !Ignored(Warned(160));
    hide NextTick, PlainWish, HostTold, Ignored;
    HostToldByLevel(cfg, Warned(160), w);
  }

  lemma WarnedWish(cfg: Config, now: int, w: World)
    requires 0 <= now
    ensures PlainWish(cfg, Warned(now), w) == Wish(true, true)
  {
    StandingAt(now);
    hide EffectiveOverrideOf, Prologue, IsOn;
  }

  lemma WarnedMark(cfg: Config, w: World)
    requires cfg == Lab(["a"]) && WarningSince !in w.kv
    ensures var kv := NextTick(cfg, Warned(100), w).w.kv; WarningSince in kv && kv[WarningSince] == 100
  {
    NoneActive(STANDING, HOST, 100, {IgnoreWeather});
    PrologueOK(cfg, Warned(100), w.(ops := 0));
    hide EffectiveOverrideOf, NextTick, Prologue;
    SafetyTable(cfg, Warned(100), Prologue(cfg, Warned(100), w.(ops := 0)).w);
    hide WeatherSafety;
    TickIsSafety(cfg, Warned(100), w);
  }
}
