/** When guest passes complete, and what a pass makes of guests that the engine switched
    since the last completed one: a forced host shutdown, or a pass that failed part-way. */
module EngineRetries {
  import opened Prelude
  import opened Schedules
  import opened Overrides
  import opened Guests
  import opened EngineSpec
  import opened EngineFrames
  import opened EngineSafety
  import opened EngineShutdown
  import opened EngineGuests
  import Weather

  // ----- when a pass completes -----

  lemma PlanGuestOK(cfg: Config, env: Env, w: World, lastTick: Option<int>, listing: map<string, bool>, g: GuestConfig)
    requires AllOK(env)
    ensures PlanGuest(cfg, env, w, lastTick, listing, g).Ok?
  {
    hide EffectiveOverrideOf, CrossingsOf, GuestWish;
  }

  lemma {:induction false} PlanOK(cfg: Config, env: Env, w: World, lastTick: Option<int>, listing: map<string, bool>,
                                  i: nat, p: Plans)
    requires AllOK(env) && i <= |cfg.guests|
    ensures PlanFrom(cfg, env, w, lastTick, listing, i, p).Ok?
    decreases |cfg.guests| - i
  {
    hide PlanGuest;
    if i < |cfg.guests| {
      var a := PlanGuest(cfg, env, w, lastTick, listing, cfg.guests[i]);
      PlanGuestOK(cfg, env, w, lastTick, listing, cfg.guests[i]);
      PlanOK(cfg, env, a.w, lastTick, listing, i + 1, AddPlan(p, a.value));
    }
  }

  lemma {:induction false} ExecuteAllOK(cfg: Config, env: Env, w: World, names: seq<string>,
                                        actions: map<string, Planned>, failed: nat)
    requires AllOK(env)
    ensures ExecuteAll(cfg, env, w, names, actions, failed).1 == failed
    decreases |names|
  {
    if names != [] {
      if names[0] in actions {
        ExecuteAllOK(cfg, env, Execute(cfg, env, w, actions[names[0]]).w, names[1..], actions, failed);
      } else {
        ExecuteAllOK(cfg, env, w, names[1..], actions, failed);
      }
    }
  }

  lemma GuestPassOK(cfg: Config, env: Env, w: World, lastTick: Option<int>, listing: map<string, bool>)
    requires AllOK(env)
    ensures Completed(GuestPass(cfg, env, w, lastTick, listing))
  {
    hide PlanFrom, ExecuteAll, Reverse;
    var empty := Plans(map[], map[]);
    PlanOK(cfg, env, w, lastTick, listing, 0, empty);
    var p := PlanFrom(cfg, env, w, lastTick, listing, 0, empty);
    ExecuteAllOK(cfg, env, p.w, Reverse(cfg.order), p.value.stops, 0);
    var (w2, f) := ExecuteAll(cfg, env, p.w, Reverse(cfg.order), p.value.stops, 0);
    ExecuteAllOK(cfg, env, w2, cfg.order, p.value.starts, 0);
  }

  /** Nothing for the safeguard to act on: it is not enforced, or the level is below Warning. */
  predicate Calm(cfg: Config, env: Env) { !cfg.enforce || env.level == Weather.Normal || env.level == Weather.Watch }

  lemma CalmSafety(cfg: Config, env: Env, w: World)
    requires AllOK(env) && Calm(cfg, env)
    ensures var s := WeatherSafety(cfg, env, w); s.Ok? && s.value == Safety(false, false)
  {
  }

  lemma CalmAct(cfg: Config, env: Env, w: World, wish: Wish, listing: map<string, bool>)
    requires AllOK(env) && env.reachable
    ensures var a := ActOnHost(cfg, env, w, wish, false, listing);
      a.Ok? && !a.value <==> wish.on || !wish.act
  {
    hide ClearWakeState, CompleteWake, ShutdownHost, PursueWake;
    ClearWakeOK(env, CompleteWake(env, w).w);
    CompleteWakeOK(env, w);
  }

  lemma CompleteWakeOK(env: Env, w: World)
    requires AllOK(env)
    ensures CompleteWake(env, w).Ok?
  {
  }

  /** A tick in which nothing fails, below Warning, on a reachable host, completes its guest
      pass exactly when schedules, guests and overrides do not want the host off. */
  lemma CalmTickCompletes(cfg: Config, env: Env, w: World)
    requires AllOK(env) && env.trusted && env.reachable && env.listing.Some? && Calm(cfg, env)
    ensures Completed(NextTick(cfg, env, w)) <==> PlainWish(cfg, env, w) != Wish(false, true)
  {
    var idle := w.(ops := 0);
    PrologueOK(cfg, env, idle);
    hide Prologue, WeatherSafety, ActOnHost, GuestPass, Listing, EffectiveOverrideOf, IsOn;
    var p := Prologue(cfg, env, idle);
    CalmSafety(cfg, env, p.w);
    var s := WeatherSafety(cfg, env, p.w);
    var d := DecideHost(cfg, env, s.w, p.value.wantsOn, s.value);
    assert d.Ok? && d.value == PlainWish(cfg, env, w);
    CalmAct(cfg, env, d.w, d.value, Listing(env));
    var a := ActOnHost(cfg, env, d.w, d.value, false, Listing(env));
    GuestPassOK(cfg, env, a.w, p.value.lastTick, Listing(env));
  }

  // ----- guests switched since the last completed pass -----

  /** The calls of the ticks since the last completed pass. */
  ghost function CallsSince(cfg: Config, w: World, envs: seq<Env>): seq<Call> {
    if envs == [] then []
    else
      var rest, env := envs[..|envs| - 1], envs[|envs| - 1];
      var before := After(cfg, w, rest);
      var r := NextTick(cfg, env, before);
      if Completed(r) then [] else CallsSince(cfg, w, rest) + NewCalls(before, r.w)
  }

  /** Since the last completed pass only the engine's own calls switched the guests now
      listed; and the clock, the rows and the listing are as Orderly asks. */
  ghost predicate OwnTick(cfg: Config, env: Env, before: World, known: Option<Known>, since: seq<Call>) {
    && ValidRows(env.rows)
    && (forall i :: Managed(cfg, i) && Trig(cfg, env, LastTickOf(before.kv), cfg.guests[i]) ==>
          cfg.guests[i].name in Listing(env))
    && (known.Some? && LastTick in before.kv ==>
          && before.kv[LastTick] <= env.now
          && Evolves(known.value.rows, env.rows, before.kv[LastTick])
          && forall i :: Managed(cfg, i) ==> LeftByEngine(env, known.value, since, cfg.guests[i].name))
  }

  ghost predicate LeftByEngine(env: Env, known: Known, since: seq<Call>, n: string) {
    && n in known.status
    && var left := Apply(known.status, since);
       n in left && (n in Listing(env) ==> left[n] == Listing(env)[n])
  }

  /** The calls since then leave guest n where the completed pass left it. */
  ghost predicate Undisturbed(known: Known, since: seq<Call>, n: string) {
    var left := Apply(known.status, since);
    n in known.status && n in left && left[n] == known.status[n]
  }

  /** Exactly when retrying works: after a completed pass, a guest that only the engine
      switches and that the pass before left in its target is in its target again if and
      only if it was triggered or the engine's calls in between had not moved it. */
  lemma RetriedExactly(cfg: Config, env: Env, before: World, known: Known, since: seq<Call>, i: nat)
    requires GoodConfig(cfg) && !cfg.dryRun && Completed(NextTick(cfg, env, before)) && Managed(cfg, i)
    requires Fits(cfg.zone, ScheduleOf(cfg, cfg.guests[i].schedule)) && LastTick in before.kv
    requires OwnTick(cfg, env, before, Some(known), since) && Agrees(cfg, known, before.kv[LastTick])
    requires Target(cfg, env.rows, cfg.guests[i], env.now).act && cfg.guests[i].name in Listing(env)
    ensures var g := cfg.guests[i];
      var after := Apply(Listing(env), NewCalls(before, NextTick(cfg, env, before).w));
      && g.name in after
      && (after[g.name] == Target(cfg, env.rows, g, env.now).on <==>
            Trig(cfg, env, LastTickOf(before.kv), g) || Undisturbed(known, since, g.name))
  {
    var a := CompletedIsPass(cfg, env, before);
    hide NextTick, GuestPass, Target, Trig, Apply, GoodConfig, Fits, Evolves;
    var g := cfg.guests[i];
    TargetReachedExactly(cfg, env, before, i);
    assert LeftByEngine(env, known, since, g.name);
    if !Trig(cfg, env, LastTickOf(before.kv), g) {
      UntriggeredTargetStands(cfg, env, known.rows, before.kv[LastTick], g);
    }
  }

  /** None of the calls switched guest n. */
  ghost predicate Untouched(calls: seq<Call>, n: string) {
    forall c :: c in calls && c.GuestCall? && c.outcome == TaskOK ==> c.name != n
  }

  lemma {:induction false} UntouchedStays(status: map<string, bool>, calls: seq<Call>, n: string)
    requires n in status && Untouched(calls, n)
    ensures var left := Apply(status, calls); n in left && left[n] == status[n]
    decreases |calls|
  {
    if calls != [] {
      assert calls[0] in calls;
      UntouchedStays(Applied(status, calls[0]), calls[1..], n);
    }
  }

  /** A run in which only the engine switches guests, and no guest that a tick switched
      since the last completed pass goes untriggered in the next one. */
  ghost predicate OwnRun(cfg: Config, w: World, envs: seq<Env>) {
    envs == [] ||
    var rest, env := envs[..|envs| - 1], envs[|envs| - 1];
    var before, known, since := After(cfg, w, rest), KnownAfter(cfg, w, rest), CallsSince(cfg, w, rest);
    && OwnRun(cfg, w, rest)
    && (Completed(NextTick(cfg, env, before)) ==>
          && OwnTick(cfg, env, before, known, since)
          && forall i :: Managed(cfg, i) ==>
               Trig(cfg, env, LastTickOf(before.kv), cfg.guests[i]) || Untouched(since, cfg.guests[i].name))
  }

  /** Such runs are orderly, so over them passes on boundaries and override changes alone
      keep every guest in its target state. */
  lemma {:induction false} OwnRunIsOrderly(cfg: Config, w: World, envs: seq<Env>)
    requires OwnRun(cfg, w, envs)
    ensures OrderlyRun(cfg, w, envs)
  {
    hide NextTick, Apply, Trig, Evolves;
    if envs != [] {
      var rest, env := envs[..|envs| - 1], envs[|envs| - 1];
      OwnRunIsOrderly(cfg, w, rest);
      var before, known := After(cfg, w, rest), KnownAfter(cfg, w, rest);
      if Completed(NextTick(cfg, env, before)) && known.Some? && LastTick in before.kv {
        forall i | Managed(cfg, i)
          ensures Trig(cfg, env, LastTickOf(before.kv), cfg.guests[i])
            || (cfg.guests[i].name in known.value.status
                && (cfg.guests[i].name in Listing(env) ==>
                      known.value.status[cfg.guests[i].name] == Listing(env)[cfg.guests[i].name]))
        {
          var n, since := cfg.guests[i].name, CallsSince(cfg, w, rest);
          assert LeftByEngine(env, known.value, since, n);
          if Untouched(since, n) { UntouchedStays(known.value.status, since, n); }
        }
      }
    }
  }
}
