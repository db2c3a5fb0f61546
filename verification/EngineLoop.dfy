/** The engine itself: an object whose methods read and write the store step by step, as
    host.go, guests.go and engine.go do. Each method is proved to do what its function in
    EngineSpec says, on success and on every failure. */
module EngineLoop {
  import opened Prelude
  import opened Signals
  import opened Schedules
  import opened Overrides
  import opened Guests
  import opened Ordering
  import S = EngineSpec
  import Weather

  class Engine {
    const cfg: S.Config
    var kv: S.KV
    var events: seq<S.Event>
    var calls: seq<S.Call>
    var ops: nat

    function World(): S.World
      reads this
    {
      S.World(kv, events, calls, ops)
    }

    /** The engine is in the state a result describes: success with v, or failure. */
    ghost predicate Ends<T>(r: S.Res<T>, ok: bool, v: T)
      reads this
    {
      r == if ok then S.Ok(v, World()) else S.Fail(World())
    }

    constructor (cfg: S.Config)
      ensures this.cfg == cfg && World() == S.World(map[], [], [], 0)
    {
      this.cfg := cfg;
      kv, events, calls, ops := map[], [], [], 0;
    }

    // ----- the store and the outside world -----

    method Op(env: S.Env) returns (ok: bool)
      modifies this`ops
      ensures Ends(S.Op(env, old(World())), ok, ())
    {
      ok := env.ok(ops);
      ops := ops + 1;
    }

    method GetState(env: S.Env, k: S.Key) returns (ok: bool, v: Option<int>)
      modifies this`ops
      ensures Ends(S.GetState(env, old(World()), k), ok, v)
    {
      v := None;
      ok := Op(env);
      if ok && k in kv { v := Some(kv[k]); }
    }

    method SetState(env: S.Env, k: S.Key, v: int) returns (ok: bool)
      modifies this`ops, this`kv
      ensures Ends(S.SetState(env, old(World()), k, v), ok, ())
    {
      ok := Op(env);
      if ok { kv := kv[k := v]; }
    }

    method DeleteState(env: S.Env, k: S.Key) returns (ok: bool)
      modifies this`ops, this`kv
      ensures Ends(S.DeleteState(env, old(World()), k), ok, ())
    {
      ok := Op(env);
      if ok { kv := kv - {k}; }
    }

    method RecordEvent(env: S.Env, e: S.Event) returns (ok: bool)
      modifies this`ops, this`events
      ensures Ends(S.RecordEvent(env, old(World()), e), ok, ())
    {
      ok := Op(env);
      if ok { events := events + [e]; }
    }

    method Query(env: S.Env, target: string, t: int, actions: set<Action>) returns (ok: bool, ov: Option<Override>)
      modifies this`ops
      ensures Ends(S.Query(env, old(World()), target, t, actions), ok, ov)
    {
      ov := None;
      ok := Op(env);
      if ok { ov := EffectiveOverrideOf(env.rows, target, t, actions); }
    }

    /** Starts a Proxmox action and waits for its task. */
    method RunTask(env: S.Env) returns (outcome: S.Outcome)
      modifies this`ops
      ensures S.RunTask(env, old(World())) == (outcome, World())
    {
      var accepted := env.ok(ops);
      ops := ops + 1;
      if !accepted { return S.Rejected; }
      var finished := env.ok(ops);
      ops := ops + 1;
      return if finished then S.TaskOK else S.TaskFailed;
    }

    // ----- host.go -----

    /** The loop over three keys shared by clearWakeState and clearWeatherEnforcementState. */
    method ClearKeys(env: S.Env, a: S.Key, b: S.Key, c: S.Key) returns (ok: bool)
      modifies this`ops, this`kv
      ensures var x := S.DeleteState(env, old(World()), a);
        if x.Fail? then !ok && World() == x.w
        else var y := S.DeleteState(env, x.w, b);
          if y.Fail? then !ok && World() == y.w
          else Ends(S.DeleteState(env, y.w, c), ok, ())
    {
      var keys := [a, b, c];
      ghost var x := S.DeleteState(env, old(World()), a);
      ghost var y := S.DeleteState(env, x.w, b);
      ghost var z := S.DeleteState(env, y.w, c);
      var i := 0;
      while i < |keys|
        invariant 0 <= i <= |keys|
        invariant i > 0 ==> x.Ok?
        invariant i > 1 ==> y.Ok?
        invariant i > 2 ==> z.Ok?
        invariant World() == if i == 0 then old(World()) else if i == 1 then x.w else if i == 2 then y.w else z.w
      {
        var deleted := DeleteState(env, keys[i]);
        if !deleted { return false; }
        i := i + 1;
      }
      return true;
    }

    method ClearWeatherState(env: S.Env) returns (ok: bool)
      modifies this`ops, this`kv
      ensures Ends(S.ClearWeatherState(env, old(World())), ok, ())
    {
      ok := ClearKeys(env, S.WarningSince, S.DangerSince, S.DangerGrace);
    }

    method ClearWakeState(env: S.Env) returns (ok: bool)
      modifies this`ops, this`kv
      ensures Ends(S.ClearWakeState(env, old(World())), ok, ())
    {
      ok := ClearKeys(env, S.WakeAttempts, S.WakeLastSent, S.WakeFailed);
    }

    method StateSince(env: S.Env, k: S.Key) returns (ok: bool, since: int)
      modifies this`ops, this`kv
      ensures Ends(S.StateSince(env, old(World()), k), ok, since)
    {
      var stored;
      since := env.now;
      ok, stored := GetState(env, k);
      if !ok { return; }
      if stored.Some? {
        since := stored.value;
        return;
      }
      ok := SetState(env, k, env.now);
    }

    method WeatherSafety(env: S.Env) returns (ok: bool, safety: S.Safety)
      modifies this`ops, this`kv
      ensures Ends(S.WeatherSafety(cfg, env, old(World())), ok, safety)
    {
      hide S.ClearWeatherState, S.StateSince;
      safety := S.Safety(false, false);
      if !cfg.enforce || Weather.Severity(env.level) < Weather.Severity(Weather.Warning) {
        ok := ClearWeatherState(env);
        return;
      }
      var ov;
      ok, ov := Query(env, S.HOST, env.now, {IgnoreWeather});
      if !ok || ov.Some? { return; }
      if env.level == Weather.Danger {
        safety := S.Safety(true, true);
        return;
      }
      var since;
      ok, since := StateSince(env, S.WarningSince);
      if ok { safety := S.Safety(env.now - since >= cfg.countdown, false); }
    }

    method DecideHost(env: S.Env, wantsOn: bool, safety: S.Safety) returns (ok: bool, wish: S.Wish)
      modifies this`ops
      ensures Ends(S.DecideHost(cfg, env, old(World()), wantsOn, safety), ok, wish)
    {
      if safety.forceOff { return true, S.Wish(false, true); }
      var on := ComputeIsOn(cfg.zone, S.ScheduleOf(cfg, cfg.hostSchedule), env.now);
      var ov;
      ok, ov := Query(env, S.HOST, env.now, POWER);
      wish := S.WishFor(ov, on || wantsOn);
    }

    method SendWoL(env: S.Env) returns (ok: bool)
      modifies this`ops, this`calls
      ensures Ends(S.SendWoL(cfg, env, old(World())), ok, ())
    {
      if cfg.dryRun { return true; }
      ok := env.ok(ops);
      ops := ops + 1;
      calls := calls + [S.WakeCall(ok)];
    }

    method NoteFirstWake(env: S.Env) returns (ok: bool)
      modifies this`ops, this`kv, this`events
      ensures Ends(S.NoteFirstWake(cfg, env, old(World())), ok, ())
    {
      ok := SetState(env, S.WakeAttempts, 1);
      if !ok { return; }
      ok := SetState(env, S.WakeLastSent, env.now);
      if !ok { return; }
      ok := RecordEvent(env, S.Event(env.now, S.HostWake, S.HOST, "schedule", cfg.dryRun));
    }

    method GiveUp(env: S.Env) returns (ok: bool)
      modifies this`ops, this`kv, this`events
      ensures Ends(S.GiveUp(cfg, env, old(World())), ok, ())
    {
      ok := SetState(env, S.WakeFailed, 1);
      if !ok { return; }
      ok := RecordEvent(env, S.Event(env.now, S.HostWakeFailed, S.HOST, "schedule", cfg.dryRun));
    }

    method NoteRetry(env: S.Env, attempts: int) returns (ok: bool)
      modifies this`ops, this`kv
      ensures Ends(S.NoteRetry(env, old(World()), attempts), ok, ())
    {
      ok := SetState(env, S.WakeAttempts, attempts);
      if !ok { return; }
      ok := SetState(env, S.WakeLastSent, env.now);
    }

    method RetryWake(env: S.Env) returns (ok: bool)
      modifies this
      ensures Ends(S.RetryWake(cfg, env, old(World())), ok, ())
    {
      hide S.GiveUp, S.NoteRetry, S.SendWoL;
      var stored;
      ok, stored := GetState(env, S.WakeAttempts);
      if !ok { return; }
      var attempts := if stored.Some? then stored.value else 0;
      if attempts >= cfg.wolRetries {
        ok := GiveUp(env);
        return;
      }
      ok := SendWoL(env);
      if !ok { return; }
      ok := NoteRetry(env, attempts + 1);
    }

    method PursueWake(env: S.Env) returns (ok: bool)
      modifies this
      ensures Ends(S.PursueWake(cfg, env, old(World())), ok, ())
    {
      hide S.NoteFirstWake, S.RetryWake, S.SendWoL;
      var failed, lastSent;
      ok, failed := GetState(env, S.WakeFailed);
      if !ok || failed.Some? { return; }
      ok, lastSent := GetState(env, S.WakeLastSent);
      if !ok { return; }
      if lastSent.None? {
        ok := SendWoL(env);
        if !ok { return; }
        ok := NoteFirstWake(env);
        return;
      }
      if env.now - lastSent.value < cfg.wakeTimeout { return; }
      ok := RetryWake(env);
    }

    method CompleteWake(env: S.Env) returns (ok: bool)
      modifies this`ops, this`kv, this`events
      ensures Ends(S.CompleteWake(env, old(World())), ok, ())
    {
      var waking;
      ok, waking := GetState(env, S.WakeLastSent);
      if !ok || waking.None? { return; }
      ok := SetState(env, S.LastWakeOK, env.now);
      if !ok { return; }
      ok := RecordEvent(env, S.Event(env.now, S.HostWakeOK, S.HOST, "schedule", false));
    }

    method GracePassed(env: S.Env, bypass: bool) returns (ok: bool, past: bool)
      modifies this`ops, this`kv
      ensures Ends(S.GracePassed(cfg, env, old(World()), bypass), ok, past)
    {
      if !bypass { return true, false; }
      var since;
      past := false;
      ok, since := StateSince(env, S.DangerGrace);
      if ok { past := env.now - since >= cfg.grace; }
    }

    method TaskCheck(env: S.Env, bypass: bool) returns (ok: bool, proceed: bool)
      modifies this`ops, this`kv
      ensures Ends(S.TaskCheck(cfg, env, old(World()), bypass), ok, proceed)
    {
      hide S.GracePassed;
      proceed := false;
      if env.tasks.None? { return false, false; }
      if env.tasks.value == 0 { return true, true; }
      var past, notified;
      ok, past := GracePassed(env, bypass);
      if !ok { return; }
      if past { return true, true; }
      ok, notified := GetState(env, S.PostponedNotified);
      if !ok || notified.Some? { return; }
      ok := SetState(env, S.PostponedNotified, 1);
    }

    method Execute(env: S.Env, a: S.Planned) returns (ok: bool)
      modifies this`ops, this`calls, this`events
      ensures Ends(S.Execute(cfg, env, old(World()), a), ok, ())
    {
      if cfg.dryRun {
        ok := RecordEvent(env, S.EventOf(env, a, true));
        return;
      }
      var outcome := RunTask(env);
      calls := calls + [S.GuestCall(a.name, a.start, outcome)];
      if outcome != S.TaskOK { return false; }
      ok := RecordEvent(env, S.EventOf(env, a, false));
    }

    /** Stops guests in reverse dependency order, giving up at the first failure. */
    method StopAll(env: S.Env, listing: map<string, bool>) returns (ok: bool)
      modifies this`ops, this`calls, this`events
      ensures Ends(S.StopAll(cfg, env, old(World()), S.Reverse(cfg.order), listing), ok, ())
    {
      hide S.Execute, S.MustStop;
      ghost var start := S.StopAll(cfg, env, World(), S.Reverse(cfg.order), listing);
      assert cfg.order[..|cfg.order|] == cfg.order;
      var i := |cfg.order|;
      while i > 0
        invariant 0 <= i <= |cfg.order|
        invariant start == S.StopAll(cfg, env, World(), S.Reverse(cfg.order[..i]), listing)
      {
        i := i - 1;
        ReverseStep(cfg.order, i);
        if S.MustStop(cfg, listing, cfg.order[i]) {
          ok := Execute(env, S.Planned(cfg.order[i], false, "schedule"));
          if !ok { return; }
        }
      }
      return true;
    }

    method StopNode(env: S.Env) returns (ok: bool)
      modifies this`ops, this`calls, this`events
      ensures Ends(S.StopNode(cfg, env, old(World())), ok, ())
    {
      if cfg.dryRun {
        ok := RecordEvent(env, S.Event(env.now, S.HostShutdown, S.HOST, "schedule", true));
        return;
      }
      var outcome := RunTask(env);
      calls := calls + [S.HostCall(outcome)];
      if outcome != S.TaskOK { return false; }
      ok := RecordEvent(env, S.Event(env.now, S.HostShutdown, S.HOST, "schedule", false));
    }

    method ShutdownHost(env: S.Env, listing: map<string, bool>, bypass: bool) returns (ok: bool)
      modifies this
      ensures Ends(S.ShutdownHost(cfg, env, old(World()), listing, bypass), ok, ())
    {
      hide S.TaskCheck, S.StopAll, S.StopNode, S.Reverse;
      var proceed;
      ok, proceed := TaskCheck(env, bypass);
      if !ok || !proceed { return; }
      ok := DeleteState(env, S.PostponedNotified);
      if !ok { return; }
      ok := DeleteState(env, S.DangerGrace);
      if !ok { return; }
      ok := StopAll(env, listing);
      if !ok { return; }
      ok := StopNode(env);
    }

    method ActOnHost(env: S.Env, wish: S.Wish, bypass: bool, listing: map<string, bool>)
      returns (ok: bool, notReady: bool)
      modifies this
      ensures Ends(S.ActOnHost(cfg, env, old(World()), wish, bypass, listing), ok, notReady)
    {
      hide S.ClearWakeState, S.CompleteWake, S.ShutdownHost, S.PursueWake;
      if !wish.act { return true, !env.reachable; }
      notReady := true;
      if !wish.on {
        ok := ClearWakeState(env);
        if !ok || !env.reachable { return; }
        ok := ShutdownHost(env, listing, bypass);
        return;
      }
      if env.reachable {
        notReady := false;
        ok := CompleteWake(env);
        if !ok { return; }
        ok := ClearWakeState(env);
        return;
      }
      ok := PursueWake(env);
    }

    method ReconcileHost(env: S.Env, wantsOn: bool, listing: map<string, bool>) returns (ok: bool, notReady: bool)
      modifies this
      ensures Ends(S.ReconcileHost(cfg, env, old(World()), wantsOn, listing), ok, notReady)
    {
      hide S.WeatherSafety, S.DecideHost, S.ActOnHost;
      notReady := false;
      var safety, wish;
      ok, safety := WeatherSafety(env);
      if !ok { return; }
      ok, wish := DecideHost(env, wantsOn, safety);
      if !ok { return; }
      ok, notReady := ActOnHost(env, wish, safety.bypass, listing);
    }

    // ----- guests.go -----

    method AnyWantsOn(env: S.Env) returns (ok: bool, wants: bool)
      modifies this`ops
      ensures Ends(S.AnyWantsOn(cfg, env, old(World()), 0), ok, wants)
    {
      hide S.WishFor, IsOn, EffectiveOverrideOf;
      ghost var start := S.AnyWantsOn(cfg, env, World(), 0);
      var i := 0;
      while i < |cfg.guests|
        invariant 0 <= i <= |cfg.guests|
        invariant start == S.AnyWantsOn(cfg, env, World(), i)
      {
        var g := cfg.guests[i];
        if !g.alwaysOn {
          var ov;
          ok, ov := Query(env, g.name, env.now, ANY);
          if !ok { return false, false; }
          var on := ComputeIsOn(cfg.zone, S.ScheduleOf(cfg, g.schedule), env.now);
          var wish := S.WishFor(ov, on);
          if wish.act && wish.on { return true, true; }
        }
        i := i + 1;
      }
      return true, false;
    }

    method Triggered(env: S.Env, lastTick: Option<int>, g: GuestConfig, ovNow: Option<Override>)
      returns (ok: bool, trigger: bool)
      modifies this`ops
      ensures Ends(S.Triggered(cfg, env, old(World()), lastTick, g, ovNow), ok, trigger)
    {
      hide IsOn, CrossingsOf, EffectiveOverrideOf;
      if lastTick.None? { return true, true; }
      var bs := Crossings(cfg.zone, S.ScheduleOf(cfg, g.schedule), lastTick.value, env.now);
      if |bs| > 0 { return true, true; }
      var ovThen;
      ok, ovThen := Query(env, g.name, lastTick.value, ANY);
      trigger := !S.SameOverride(ovThen, ovNow);
    }

    method PlanGuest(env: S.Env, lastTick: Option<int>, listing: map<string, bool>, g: GuestConfig)
      returns (ok: bool, a: Option<S.Planned>)
      modifies this`ops
      ensures Ends(S.PlanGuest(cfg, env, old(World()), lastTick, listing, g), ok, a)
    {
      hide S.Triggered, S.WishFor, IsOn, EffectiveOverrideOf;
      a := None;
      if g.alwaysOn { return true, None; }
      var ov, trigger;
      ok, ov := Query(env, g.name, env.now, ANY);
      if !ok { return; }
      ok, trigger := Triggered(env, lastTick, g, ov);
      if !ok || !trigger { return; }
      var on := ComputeIsOn(cfg.zone, S.ScheduleOf(cfg, g.schedule), env.now);
      var wish := S.WishFor(ov, on);
      if !wish.act || g.name !in listing || listing[g.name] == wish.on { return; }
      a := Some(S.Planned(g.name, wish.on, if ov.Some? then ov.value.createdBy else "schedule"));
    }

    method Plan(env: S.Env, lastTick: Option<int>, listing: map<string, bool>) returns (ok: bool, p: S.Plans)
      modifies this`ops
      ensures Ends(S.PlanFrom(cfg, env, old(World()), lastTick, listing, 0, S.Plans(map[], map[])), ok, p)
    {
      hide S.PlanGuest;
      p := S.Plans(map[], map[]);
      ghost var start := S.PlanFrom(cfg, env, World(), lastTick, listing, 0, p);
      var i := 0;
      while i < |cfg.guests|
        invariant 0 <= i <= |cfg.guests|
        invariant start == S.PlanFrom(cfg, env, World(), lastTick, listing, i, p)
      {
        var a;
        ok, a := PlanGuest(env, lastTick, listing, cfg.guests[i]);
        if !ok { return; }
        p := S.AddPlan(p, a);
        i := i + 1;
      }
      ok := true;
    }

    /** Stops in reverse dependency order; failures are counted, not fatal. */
    method ExecuteStops(env: S.Env, stops: map<string, S.Planned>) returns (failed: nat)
      modifies this`ops, this`calls, this`events
      ensures S.ExecuteAll(cfg, env, old(World()), S.Reverse(cfg.order), stops, 0) == (World(), failed)
    {
      hide S.Execute;
      failed := 0;
      ghost var start := S.ExecuteAll(cfg, env, World(), S.Reverse(cfg.order), stops, 0);
      assert cfg.order[..|cfg.order|] == cfg.order;
      var i := |cfg.order|;
      while i > 0
        invariant 0 <= i <= |cfg.order|
        invariant start == S.ExecuteAll(cfg, env, World(), S.Reverse(cfg.order[..i]), stops, failed)
      {
        i := i - 1;
        ReverseStep(cfg.order, i);
        if cfg.order[i] in stops {
          var ok := Execute(env, stops[cfg.order[i]]);
          if !ok { failed := failed + 1; }
        }
      }
    }

    /** Starts in dependency order, after the stops and whatever became of them. */
    method ExecuteStarts(env: S.Env, starts: map<string, S.Planned>, failedStops: nat) returns (failed: nat)
      modifies this`ops, this`calls, this`events
      ensures S.ExecuteAll(cfg, env, old(World()), cfg.order, starts, failedStops) == (World(), failed)
    {
      hide S.Execute;
      failed := failedStops;
      ghost var start := S.ExecuteAll(cfg, env, World(), cfg.order, starts, failed);
      var i := 0;
      while i < |cfg.order|
        invariant 0 <= i <= |cfg.order|
        invariant start == S.ExecuteAll(cfg, env, World(), cfg.order[i..], starts, failed)
      {
        assert cfg.order[i..][1..] == cfg.order[i + 1..];
        if cfg.order[i] in starts {
          var ok := Execute(env, starts[cfg.order[i]]);
          if !ok { failed := failed + 1; }
        }
        i := i + 1;
      }
    }

    // ----- engine.go -----

    method GuestPass(env: S.Env, lastTick: Option<int>, listing: map<string, bool>) returns (ok: bool)
      modifies this
      ensures Ends(S.GuestPass(cfg, env, old(World()), lastTick, listing), ok, true)
    {
      hide S.PlanFrom, S.ExecuteAll, S.Reverse;
      var p;
      ok, p := Plan(env, lastTick, listing);
      if !ok { return; }
      var failedStops := ExecuteStops(env, p.stops);
      var failed := ExecuteStarts(env, p.starts, failedStops);
      if failed > 0 { return false; }
      ok := SetState(env, S.LastTick, env.now);
    }

    method Prologue(env: S.Env) returns (ok: bool, intro: S.Intro)
      modifies this`ops
      ensures Ends(S.Prologue(cfg, env, old(World())), ok, intro)
    {
      hide S.AnyWantsOn;
      intro := S.Intro(None, false);
      var lastTick, wants;
      ok, lastTick := GetState(env, S.LastTick);
      if !ok { return; }
      if env.reachable && env.listing.None? { return false, intro; }
      ok, wants := AnyWantsOn(env);
      intro := S.Intro(lastTick, wants);
    }

    /** One scheduler pass: the host first, then, when it is up and stays up, the guests. */
    method Tick(env: S.Env) returns (ok: bool, completed: bool)
      modifies this
      ensures Ends(S.NextTick(cfg, env, old(World())), ok, completed)
    {
      hide S.Prologue, S.ReconcileHost, S.GuestPass;
      ops := 0;
      completed := false;
      if !env.trusted { return true, false; }
      var intro, notReady;
      ok, intro := Prologue(env);
      if !ok { return; }
      ok, notReady := ReconcileHost(env, intro.wantsOn, S.Listing(env));
      if !ok || !env.reachable || notReady { return; }
      ok := GuestPass(env, intro.lastTick, S.Listing(env));
      completed := ok;
    }
  }

  lemma ReverseStep(xs: seq<string>, i: nat)
    requires i < |xs|
    ensures S.Reverse(xs[..i + 1]) == [xs[i]] + S.Reverse(xs[..i])
    ensures S.Reverse(xs[..i + 1])[1..] == S.Reverse(xs[..i])
  {
    assert xs[..i + 1][..i] == xs[..i];
  }

  /** New: an engine exists only for an acyclic dependency graph, with its order computed. */
  method New(cfg: S.Config, names: seq<string>) returns (e: Option<Engine>)
    requires forall n :: n in names <==> n in ByName(cfg.guests)
    ensures e.None? <==> Cyclic(ByName(cfg.guests))
    ensures e.Some? ==> fresh(e.value) && e.value.cfg == cfg.(order := e.value.cfg.order)
    ensures e.Some? ==> Topological(ByName(cfg.guests), e.value.cfg.order)
    ensures e.Some? ==> forall i :: 0 <= i < |cfg.guests| ==> cfg.guests[i].name in e.value.cfg.order
    ensures UniqueNames(cfg.guests) ==> (e.None? <==> exists walk :: Closes(cfg.guests, walk))
    ensures UniqueNames(cfg.guests) && e.Some? ==> InOrder(cfg.guests, e.value.cfg.order)
  {
    var order := TopologicalOrder(cfg.guests, names);
    if order.None? { return None; }
    var engine := new Engine(cfg.(order := order.value));
    return Some(engine);
  }
}
