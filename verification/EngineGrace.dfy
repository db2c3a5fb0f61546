/** The Danger grace over runs in which anything may fail: what it takes to tell the node,
    when the grace ends, and when it starts again. */
module EngineGrace {
  import opened Prelude
  import opened Overrides
  import opened EngineSpec
  import opened EngineFrames
  import opened EngineSafety
  import opened EngineShutdown

  // ----- what it takes to tell the node -----

  /** A tick up to the point where it stops the guests; true when it gets there. */
  function BeforeStops(cfg: Config, env: Env, w: World): Res<bool> {
    var (d, w1) :- Decided(cfg, env, w);
    if d.wish != Wish(false, true) || !env.reachable then Ok(false, w1)
    else
      var (_, w2) :- ClearWakeState(env, w1);
      ClearForStops(cfg, env, w2, d.safety.bypass)
  }

  function ClearForStops(cfg: Config, env: Env, w: World, bypass: bool): Res<bool> {
    var (proceed, w1) :- TaskCheck(cfg, env, w, bypass);
    if !proceed then Ok(false, w1)
    else
      var (_, w2) :- DeleteState(env, w1, PostponedNotified);
      var (_, w3) :- DeleteState(env, w2, DangerGrace);
      Ok(true, w3)
  }

  /** Each guest that must stop takes three operations: its shutdown is accepted, its task
      ends OK, and the event is recorded. */
  ghost predicate StopsSucceed(cfg: Config, env: Env, w: World, names: seq<string>) {
    forall k :: w.ops <= k < w.ops + 3 * |StopList(cfg, Listing(env), names)| ==> env.ok(k)
  }

  lemma ExecuteSucceeds(cfg: Config, env: Env, w: World, p: Planned)
    requires !cfg.dryRun
    ensures var r := Execute(cfg, env, w, p);
      && (r.Ok? <==> env.ok(w.ops) && env.ok(w.ops + 1) && env.ok(w.ops + 2))
      && (r.Ok? ==> r.w.ops == w.ops + 3)
  {
  }

  lemma {:induction false} StopAllSucceeds(cfg: Config, env: Env, w: World, names: seq<string>)
    requires !cfg.dryRun
    ensures StopAll(cfg, env, w, names, Listing(env)).Ok? <==> StopsSucceed(cfg, env, w, names)
    decreases |names|
  {
    hide MustStop, Listing, Execute;
    if names != [] {
      if MustStop(cfg, Listing(env), names[0]) {
        var r := Execute(cfg, env, w, Planned(names[0], false, "schedule"));
        ExecuteSucceeds(cfg, env, w, Planned(names[0], false, "schedule"));
        assert StopList(cfg, Listing(env), names) == [names[0]] + StopList(cfg, Listing(env), names[1..]);
        if r.Ok? { StopAllSucceeds(cfg, env, r.w, names[1..]); }
      } else {
        StopAllSucceeds(cfg, env, w, names[1..]);
      }
    }
  }

  lemma ShutdownDecides(cfg: Config, env: Env, w: World, bypass: bool)
    requires !cfg.dryRun
    ensures var b, r := ClearForStops(cfg, env, w, bypass), ShutdownHost(cfg, env, w, Listing(env), bypass);
      && (HostTold(w, r.w) <==> b.Ok? && b.value && StopsSucceed(cfg, env, b.w, Reverse(cfg.order)))
      && (b.Ok? && b.value ==> DangerGrace !in r.w.kv)
  {
    hide TaskCheck, StopAll, StopNode, Reverse, Listing, StopsSucceed;
    var b := ClearForStops(cfg, env, w, bypass);
    TaskCheckFrame(cfg, env, w, bypass);
    var s := StopAll(cfg, env, b.w, Reverse(cfg.order), Listing(env));
    StopAllFrame(cfg, env, b.w, Reverse(cfg.order), Listing(env));
    StopAllSucceeds(cfg, env, b.w, Reverse(cfg.order));
    StopNodeExact(cfg, env, s.w);
    StopNodeFrame(cfg, env, s.w);
    var r := ShutdownHost(cfg, env, w, Listing(env), bypass);
    if b.Ok? && b.value {
      assert b.w.calls == w.calls && r.w == if s.Ok? then StopNode(cfg, env, s.w).w else s.w;
      if s.Ok? { assert r.w.calls[|s.w.calls|].HostCall?; }
    } else {
      assert r.w.calls == w.calls;
    }
  }

  lemma ActDecides(cfg: Config, env: Env, w: World, wish: Wish, bypass: bool)
    requires !cfg.dryRun && wish == Wish(false, true) && env.reachable
    ensures var a, c := ActOnHost(cfg, env, w, wish, bypass, Listing(env)), ClearWakeState(env, w);
      && (a.Ok? ==> a.value)
      && (HostTold(w, a.w) <==>
            c.Ok? && var b := ClearForStops(cfg, env, c.w, bypass);
                     b.Ok? && b.value && StopsSucceed(cfg, env, b.w, Reverse(cfg.order)))
      && (c.Ok? && ClearForStops(cfg, env, c.w, bypass).Ok? && ClearForStops(cfg, env, c.w, bypass).value ==>
            DangerGrace !in a.w.kv)
  {
    hide ClearWakeState, ClearForStops, ShutdownHost, CompleteWake, PursueWake, StopsSucceed, Listing, Reverse;
    var c := ClearWakeState(env, w);
    ClearWakeFrame(env, w);
    ShutdownDecides(cfg, env, c.w, bypass);
    SameCallsTold(cfg, Listing(env), c.w, w, ShutdownHost(cfg, env, c.w, Listing(env), bypass).w);
  }

  /** A live tick tells the node exactly when it gets past its reads and writes up to the
      stops and every guest that must stop does and is recorded. Once it gets to the stops
      the Danger mark is gone, whether or not they succeed. */
  lemma ToldExactly(cfg: Config, env: Env, w: World)
    requires !cfg.dryRun
    ensures var b, w' := BeforeStops(cfg, env, w.(ops := 0)), NextTick(cfg, env, w).w;
      && (HostTold(w, w') <==>
            env.trusted && b.Ok? && b.value && StopsSucceed(cfg, env, b.w, Reverse(cfg.order)))
      && (env.trusted && b.Ok? && b.value ==> DangerGrace !in w'.kv)
  {
    hide Tick, Prologue, WeatherSafety, DecideHost, ActOnHost, GuestPass, Listing, TaskCheck, ClearWakeState;
    hide ClearForStops, StopsSucceed, Reverse, StoppedThenTold, HostTold;
    var st := TickTold(cfg, env, w.(ops := 0));
    SameCallsTold(cfg, Listing(env), w, w.(ops := 0), NextTick(cfg, env, w).w);
    if st.Acting? {
      WeatherSafetyFrame(cfg, env, st.w1);
      if st.wish == Wish(false, true) && env.reachable {
        ActDecides(cfg, env, st.w3, st.wish, st.safety.bypass);
        var a := ActOnHost(cfg, env, st.w3, st.wish, st.safety.bypass, Listing(env));
        SameCallsTold(cfg, Listing(env), w, st.w3, a.w);
        assert NextTick(cfg, env, w).w == a.w;
        assert BeforeStops(cfg, env, w.(ops := 0)) ==
          var c := ClearWakeState(env, st.w3);
          if c.Fail? then Fail(c.w) else ClearForStops(cfg, env, c.w, st.safety.bypass);
      }
    }
  }

  // ----- un-ignored Danger -----

  predicate GraceOver(cfg: Config, env: Env, kv: KV) {
    !Busy(env) || env.now - GraceSince(kv, env.now) >= cfg.grace
  }

  lemma TaskCheckDecides(cfg: Config, env: Env, w: World)
    ensures var t := TaskCheck(cfg, env, w, true);
      && (t.Ok? ==> (t.value <==> GraceOver(cfg, env, w.kv)))
      && (Busy(env) && DangerGrace in w.kv ==> SameKey(w.kv, t.w.kv, DangerGrace))
  {
    hide StateSince;
    StateSinceEffect(env, w, DangerGrace);
  }

  lemma DangerForcesOff(cfg: Config, env: Env, w: World)
    requires DangerOn(cfg, env)
    ensures var s := WeatherSafety(cfg, env, w);
      OnlyOps(w, s.w) && (s.Ok? ==> s.value == Safety(true, true))
  {
    hide EffectiveOverrideOf;
  }

  /** Under un-ignored Danger on a reachable host, a tick that fails nowhere before the
      stops gets to them exactly when no tasks are active or the grace is over. */
  lemma DangerReachesStops(cfg: Config, env: Env, w: World)
    requires DangerOn(cfg, env) && env.reachable
    ensures var b := BeforeStops(cfg, env, w);
      b.Ok? ==> (b.value <==> GraceOver(cfg, env, w.kv))
  {
    hide Prologue, WeatherSafety, ClearWakeState, TaskCheck;
    PrologueFrame(cfg, env, w);
    var p := Prologue(cfg, env, w);
    DangerForcesOff(cfg, env, p.w);
    var w3 := WeatherSafety(cfg, env, p.w).w;
    ClearWakeFrame(env, w3);
    var c := ClearWakeState(env, w3).w;
    assert SameKey(w3.kv, c.kv, DangerGrace) by { assert DangerGrace !in WAKE_KEYS; }
    TaskCheckDecides(cfg, env, c);
  }

  /** Enforced, un-ignored Danger past the grace (or without tasks), nothing failing before
      the stops: the node is told if and only if every guest that must stop does and is
      recorded, and the grace mark is gone either way. */
  lemma PastGraceTold(cfg: Config, env: Env, w: World)
    requires !cfg.dryRun && env.trusted && env.reachable && DangerOn(cfg, env) && GraceOver(cfg, env, w.kv)
    requires BeforeStops(cfg, env, w.(ops := 0)).Ok?
    ensures var b, w' := BeforeStops(cfg, env, w.(ops := 0)), NextTick(cfg, env, w).w;
      && (HostTold(w, w') <==> StopsSucceed(cfg, env, b.w, Reverse(cfg.order)))
      && DangerGrace !in w'.kv
  {
    hide BeforeStops, NextTick, StopsSucceed, HostTold, DangerOn;
    DangerReachesStops(cfg, env, w.(ops := 0));
    ToldExactly(cfg, env, w);
  }

  /** So a guest that fails to stop restarts the grace: after such a tick, over any later
      run, a busy node is told only once a new postponement is a whole grace old; the very
      next un-ignored Danger on a busy host is that postponement. */
  lemma FailedStopRestartsGrace(cfg: Config, env: Env, w: World, later: seq<Env>, next: Env)
    requires !cfg.dryRun && env.trusted && cfg.grace > 0 && Busy(next)
    requires var b := BeforeStops(cfg, env, w.(ops := 0));
      b.Ok? && b.value && !StopsSucceed(cfg, env, b.w, Reverse(cfg.order))
    ensures var w1 := NextTick(cfg, env, w).w;
      && !HostTold(w, w1) && DangerGrace !in w1.kv
      && (HostTold(After(cfg, w1, later), NextTick(cfg, next, After(cfg, w1, later)).w) ==>
            exists j :: GraceStartedAt(cfg, w1, later, j) && next.now - later[j].now >= cfg.grace)
      && (DangerTick(cfg, next) ==>
            var w2 := NextTick(cfg, next, w1).w;
            w2.calls == w1.calls && DangerGrace in w2.kv && w2.kv[DangerGrace] == next.now)
  {
    hide BeforeStops, NextTick, StopsSucceed, HostTold, GraceStartedAt, DangerTick;
    ToldExactly(cfg, env, w);
    var w1 := NextTick(cfg, env, w).w;
    if HostTold(After(cfg, w1, later), NextTick(cfg, next, After(cfg, w1, later)).w) {
      BusyHostWaitedGrace(cfg, w1, later, next);
    }
    if DangerTick(cfg, next) { DangerDecides(cfg, next, w1); }
  }

  // ----- the grace period does end -----

  /** Un-ignored Danger on a busy host within the grace. */
  predicate WithinGrace(cfg: Config, env: Env, since: int) {
    DangerOn(cfg, env) && Busy(env) && env.now - since < cfg.grace
  }

  lemma ActWithinGrace(cfg: Config, env: Env, w: World)
    requires DangerGrace in w.kv && WithinGrace(cfg, env, w.kv[DangerGrace])
    ensures var a := ActOnHost(cfg, env, w, Wish(false, true), true, Listing(env));
      && (a.Ok? ==> a.value)
      && a.w.calls == w.calls && SameKey(w.kv, a.w.kv, DangerGrace)
  {
    hide ClearWakeState, TaskCheck, ProceedShutdown, CompleteWake, PursueWake, Listing;
    var c := ClearWakeState(env, w).w;
    ClearWakeFrame(env, w);
    assert SameKey(w.kv, c.kv, DangerGrace) by { assert DangerGrace !in WAKE_KEYS; }
    TaskCheckDecides(cfg, env, c);
    TaskCheckFrame(cfg, env, c, true);
  }

  /** Within the grace a tick makes no call and keeps the mark, whatever fails. */
  lemma GraceStands(cfg: Config, env: Env, w: World)
    requires DangerGrace in w.kv && WithinGrace(cfg, env, w.kv[DangerGrace])
    ensures var w' := NextTick(cfg, env, w).w;
      w'.calls == w.calls && SameKey(w.kv, w'.kv, DangerGrace)
  {
    hide Tick, Prologue, WeatherSafety, ActOnHost, GuestPass, Listing;
    var st := TickStages(cfg, env, w.(ops := 0));
    if !st.NoIntro? { DangerForcesOff(cfg, env, st.w1); }
    if st.Acting? { ActWithinGrace(cfg, env, st.w3); }
  }

  lemma {:induction false} PostponedRun(cfg: Config, w: World, envs: seq<Env>, j: nat)
    requires j < |envs| && GraceStartedAt(cfg, w, envs[..j + 1], j)
    requires forall i :: j < i < |envs| ==> WithinGrace(cfg, envs[i], envs[j].now)
    ensures GraceStartedAt(cfg, w, envs, j)
    ensures After(cfg, w, envs).calls == After(cfg, w, envs[..j + 1]).calls
    decreases |envs|
  {
    hide NextTick, Postpones, WithinGrace;
    var n := |envs| - 1;
    var rest := envs[..n];
    assert envs[..|envs|] == envs;
    assert forall k :: 0 <= k <= n ==> rest[..k] == envs[..k];
    if j < n {
      PostponedRun(cfg, w, rest, j);
      assert After(cfg, w, rest[..|rest|]) == After(cfg, w, rest);
      GraceStands(cfg, envs[n], After(cfg, w, rest));
    }
  }

  /** A grace period once started decides every failure-free tick under un-ignored Danger,
      whatever failed on the way: the node is told if and only if the grace is over or no
      tasks are active. */
  lemma GraceDecides(cfg: Config, w: World, envs: seq<Env>, j: int, env: Env)
    requires !cfg.dryRun && GraceStartedAt(cfg, w, envs, j) && DangerTick(cfg, env)
    ensures var before := After(cfg, w, envs);
      HostTold(before, NextTick(cfg, env, before).w) <==> !Busy(env) || env.now - envs[j].now >= cfg.grace
  {
    hide NextTick, DangerTick, Postpones;
    assert envs[..|envs|] == envs;
    DangerDecides(cfg, env, After(cfg, w, envs));
  }

  /** While un-ignored Danger persists on a busy host, every tick within the grace of the
      first postponement leaves host and guests alone, whatever fails in it, and the first
      failure-free tick past it on a reachable host shuts the host down. */
  lemma FirstTickPastGraceShutsDown(cfg: Config, w: World, envs: seq<Env>, j: nat, env: Env)
    requires !cfg.dryRun && j < |envs| && GraceStartedAt(cfg, w, envs[..j + 1], j)
    requires forall i :: j < i < |envs| ==> WithinGrace(cfg, envs[i], envs[j].now)
    requires DangerTick(cfg, env) && env.now - envs[j].now >= cfg.grace
    ensures var before := After(cfg, w, envs);
      && before.calls == After(cfg, w, envs[..j + 1]).calls
      && HostTold(before, NextTick(cfg, env, before).w)
      && NextTick(cfg, env, before).w.calls[|NextTick(cfg, env, before).w.calls| - 1] == HostCall(TaskOK)
  {
    hide NextTick, DangerTick, WithinGrace, Postpones;
    PostponedRun(cfg, w, envs, j);
    assert envs[..|envs|] == envs;
    DangerDecides(cfg, env, After(cfg, w, envs));
  }
}
