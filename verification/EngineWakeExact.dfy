/** Exactly when a packet is sent, giving up is recorded, and a success is recorded, also a
    second time. */
module EngineWakeExact {
  import opened Prelude
  import opened Schedules
  import opened Overrides
  import opened EngineSpec
  import opened EngineFrames
  import opened EngineSafety
  import opened EngineShutdown
  import opened EngineWake
  import Weather

  // ----- what a tick decides when nothing fails -----

  /** The weather demands the host off. */
  predicate ForcedOff(cfg: Config, env: Env, kv: KV) {
    && cfg.enforce && !Ignored(env)
    && (env.level == Weather.Danger
        || (env.level == Weather.Warning && env.now - CountdownStart(kv, env.now) >= cfg.countdown))
  }

  function CountdownStart(kv: KV, now: int): int { if WarningSince in kv then kv[WarningSince] else now }

  /** Neither the weather nor schedules and overrides keep the host off or alone. */
  predicate Wanted(cfg: Config, env: Env, w: World) {
    !ForcedOff(cfg, env, w.kv) && PlainWish(cfg, env, w) == Wish(true, true)
  }

  lemma SafetyExactly(cfg: Config, env: Env, w: World)
    requires AllOK(env)
    ensures var s := WeatherSafety(cfg, env, w); s.Ok? && (s.value.forceOff <==> ForcedOff(cfg, env, w.kv))
  {
    hide EffectiveOverrideOf;
  }

  lemma DecidedExactly(cfg: Config, env: Env, w: World)
    requires AllOK(env) && (env.reachable ==> env.listing.Some?)
    ensures var d := Decided(cfg, env, w.(ops := 0));
      d.Ok? && d.value.wish == if ForcedOff(cfg, env, w.kv) then Wish(false, true) else PlainWish(cfg, env, w)
  {
    var idle := w.(ops := 0);
    PrologueOK(cfg, env, idle);
    PrologueFrame(cfg, env, idle);
    SafetyExactly(cfg, env, Prologue(cfg, env, idle).w);
    hide Prologue, WeatherSafety, EffectiveOverrideOf, IsOn, ForcedOff, WishFor;
  }

  // ----- packets and giving up -----

  /** A pursuit sends: the first packet, or one more after the timeout. */
  predicate Due(cfg: Config, kv: KV, now: int) {
    && WakeFailed !in kv
    && (WakeLastSent !in kv || (now - kv[WakeLastSent] >= cfg.wakeTimeout && Attempts(kv) < cfg.wolRetries))
  }

  /** A pursuit gives up: the timeout is over and so are the attempts. */
  predicate GivesUp(cfg: Config, kv: KV, now: int) {
    && WakeFailed !in kv && WakeLastSent in kv
    && now - kv[WakeLastSent] >= cfg.wakeTimeout && Attempts(kv) >= cfg.wolRetries
  }

  /** The wake keys after a pursuit. */
  ghost predicate Pursued(cfg: Config, kv: KV, kv': KV, now: int) {
    if Due(cfg, kv, now) then
      && Attempts(kv') == (if WakeLastSent in kv then Attempts(kv) + 1 else 1)
      && WakeLastSent in kv' && kv'[WakeLastSent] == now && WakeFailed !in kv'
    else
      && SameKey(kv, kv', WakeAttempts) && SameKey(kv, kv', WakeLastSent)
      && (WakeFailed in kv' <==> WakeFailed in kv || GivesUp(cfg, kv, now))
  }

  ghost predicate PursuedExactly(cfg: Config, env: Env, w: World, w': World) {
    && w'.calls == w.calls + (if Due(cfg, w.kv, env.now) && !cfg.dryRun then [WakeCall(true)] else [])
    && Failures(w'.events) == Failures(w.events) + (if GivesUp(cfg, w.kv, env.now) then 1 else 0)
    && w'.events == w.events +
         (if Due(cfg, w.kv, env.now) && WakeLastSent !in w.kv
          then [Event(env.now, HostWake, HOST, "schedule", cfg.dryRun)]
          else if GivesUp(cfg, w.kv, env.now) then [Event(env.now, HostWakeFailed, HOST, "schedule", cfg.dryRun)]
          else [])
    && Pursued(cfg, w.kv, w'.kv, env.now)
  }

  lemma FirstExactly(cfg: Config, env: Env, w: World)
    requires AllOK(env) && WakeFailed !in w.kv && WakeLastSent !in w.kv
    ensures var r := FirstWake(cfg, env, w); r.Ok? && PursuedExactly(cfg, env, w, r.w)
  {
    RecordedAppend(w.events, Event(env.now, HostWake, HOST, "schedule", cfg.dryRun), HostWakeFailed);
    hide Recorded;
  }

  lemma RetryExactly(cfg: Config, env: Env, w: World)
    requires AllOK(env) && WakeFailed !in w.kv && WakeLastSent in w.kv
    requires env.now - w.kv[WakeLastSent] >= cfg.wakeTimeout
    ensures var r := RetryWake(cfg, env, w); r.Ok? && PursuedExactly(cfg, env, w, r.w)
  {
    RecordedAppend(w.events, Event(env.now, HostWakeFailed, HOST, "schedule", cfg.dryRun), HostWakeFailed);
    hide Recorded;
  }

  lemma PursueExactly(cfg: Config, env: Env, w: World)
    requires AllOK(env)
    ensures var r := PursueWake(cfg, env, w); r.Ok? && PursuedExactly(cfg, env, w, r.w)
  {
    hide FirstWake, RetryWake, Recorded;
    var w2 := w.(ops := w.ops + 2);
    if WakeFailed !in w.kv {
      if WakeLastSent !in w.kv {
        FirstExactly(cfg, env, w2);
      } else if env.now - w.kv[WakeLastSent] >= cfg.wakeTimeout {
        RetryExactly(cfg, env, w2);
      }
    }
  }

  lemma ActOffHost(cfg: Config, env: Env, w: World, wish: Wish, bypass: bool, listing: map<string, bool>)
    requires AllOK(env) && !env.reachable
    ensures var a := ActOnHost(cfg, env, w, wish, bypass, listing);
      if wish == Wish(true, true) then PursuedExactly(cfg, env, w, a.w)
      else SameLogs(w, a.w) && (wish == Wish(false, true) ==> NoWakeKeys(a.w.kv)) && (!wish.act ==> a.w == w)
  {
    hide ClearWakeState, ShutdownHost, PursueWake, PursuedExactly;
    ClearWakeFrame(env, w);
    ClearWakeAll(env, w);
    PursueExactly(cfg, env, w);
  }

  predicate NoWakeKeys(kv: KV) { WakeAttempts !in kv && WakeLastSent !in kv && WakeFailed !in kv }

  lemma ClearWakeAll(env: Env, w: World)
    requires AllOK(env)
    ensures var c := ClearWakeState(env, w); c.Ok? && NoWakeKeys(c.w.kv)
  {
  }

  lemma PursuedFrom(cfg: Config, env: Env, w: World, w1: World, w': World)
    requires PursuedExactly(cfg, env, w1, w') && SameWakeKeys(w, w1) && SameLogs(w, w1)
    ensures PursuedExactly(cfg, env, w, w')
  {
    assert SameKey(w.kv, w1.kv, WakeAttempts) && SameKey(w.kv, w1.kv, WakeLastSent) && SameKey(w.kv, w1.kv, WakeFailed);
    hide Recorded;
  }

  /** A tick that finds the host off and fails nowhere: when the host is wanted it sends a
      packet if and only if one is due, and records that it gives up if and only if the last
      attempt timed out; otherwise it does neither, and forgets a wake in progress
      when the host is wanted off. */
  lemma OffHostTick(cfg: Config, env: Env, w: World)
    requires AllOK(env) && env.trusted && !env.reachable
    ensures var w' := NextTick(cfg, env, w).w;
      if Wanted(cfg, env, w) then PursuedExactly(cfg, env, w, w')
      else
        && SameLogs(w, w')
        && (ForcedOff(cfg, env, w.kv) || PlainWish(cfg, env, w) == Wish(false, true) ==> NoWakeKeys(w'.kv))
  {
    var idle := w.(ops := 0);
    DecidedExactly(cfg, env, w);
    TickActs(cfg, env, idle);
    hide Decided, Tick, ActOnHost, GuestPass, ForcedOff, PlainWish, Listing, Recorded, PursuedExactly;
    var d := Decided(cfg, env, idle);
    assert SameWakeKeys(w, d.w);
    hide SameWakeKeys, Touches;
    ActOffHost(cfg, env, d.w, d.value.wish, d.value.safety.bypass, Listing(env));
    if Wanted(cfg, env, w) { PursuedFrom(cfg, env, w, d.w, NextTick(cfg, env, w).w); }
  }

  /** At Warning or above a host that is off is woken if and only if the safeguard is
      overridden, or the level is Warning and its countdown not over, and schedules and
      overrides want the host on and a packet is due. So when Danger falls to Warning the
      engine wakes the host it had forced off. */
  lemma WokenAtWarning(cfg: Config, env: Env, w: World)
    requires AllOK(env) && env.trusted && !env.reachable && !cfg.dryRun
    requires cfg.enforce && (env.level == Weather.Warning || env.level == Weather.Danger)
    ensures NextTick(cfg, env, w).w.calls == w.calls + [WakeCall(true)] <==>
      && (Ignored(env)
          || (env.level == Weather.Warning && env.now - CountdownStart(w.kv, env.now) < cfg.countdown))
      && PlainWish(cfg, env, w) == Wish(true, true)
      && Due(cfg, w.kv, env.now)
  {
    hide NextTick, PlainWish, Due, Ignored, Recorded;
    OffHostTick(cfg, env, w);
    assert env.level == Weather.Warning || env.level == Weather.Danger;
  }

  // ----- an episode nobody answers -----

  /** The host is off and wanted, and nothing fails. */
  ghost predicate WakeTick(cfg: Config, env: Env, w: World) {
    AllOK(env) && env.trusted && !env.reachable && Wanted(cfg, env, w)
  }

  /** Such ticks from a store without wake keys, each at least the timeout after the one before. */
  ghost predicate Unanswered(cfg: Config, w: World, envs: seq<Env>) {
    if envs == [] then WakeAttempts !in w.kv && WakeLastSent !in w.kv && WakeFailed !in w.kv
    else
      var n := |envs| - 1;
      && Unanswered(cfg, w, envs[..n])
      && WakeTick(cfg, envs[n], After(cfg, w, envs[..n]))
      && (n > 0 ==> envs[n].now - envs[n - 1].now >= cfg.wakeTimeout)
  }

  function Min(a: int, b: int): int { if a < b then a else b }

  /** An unanswered live episode sends one packet a tick up to max(1, retries) of them, then
      records once that it gives up, then stays silent. */
  lemma {:induction false} UnansweredEpisode(cfg: Config, w: World, envs: seq<Env>)
    requires !cfg.dryRun && Unanswered(cfg, w, envs)
    ensures var w', n, most := After(cfg, w, envs), |envs|, Max(1, cfg.wolRetries);
      && Sends(w'.calls) == Sends(w.calls) + Min(n, most)
      && Failures(w'.events) == Failures(w.events) + (if n > most then 1 else 0)
      && Attempts(w'.kv) == Min(n, most) && (WakeFailed in w'.kv <==> n > most)
      && (WakeLastSent in w'.kv <==> n > 0)
      && (0 < n <= most ==> w'.kv[WakeLastSent] == envs[n - 1].now)
  {
    hide NextTick, Wanted, Recorded, Sends;
    if envs != [] {
      var rest, env := envs[..|envs| - 1], envs[|envs| - 1];
      var before := After(cfg, w, rest);
      UnansweredEpisode(cfg, w, rest);
      OffHostTick(cfg, env, before);
      SendsAppend(before.calls, WakeCall(true));
      assert before.calls + [] == before.calls;
    }
  }

  // ----- success, and success again -----

  lemma ActRecords(cfg: Config, env: Env, w: World, bypass: bool, listing: map<string, bool>)
    requires env.reachable
    ensures var r := ActOnHost(cfg, env, w, Wish(true, true), bypass, listing);
      && (!NoSuccess(w, r.w) <==>
            WakeLastSent in w.kv && env.ok(w.ops) && env.ok(w.ops + 1) && env.ok(w.ops + 2))
      && (!NoSuccess(w, r.w) ==> (WakeLastSent in r.w.kv <==> !env.ok(w.ops + 3) || !env.ok(w.ops + 4)))
  {
    RecordedAppend(w.events, Event(env.now, HostWakeOK, HOST, "schedule", false), HostWakeOK);
    hide ShutdownHost, PursueWake, Recorded;
  }

  lemma OtherActsRecordNothing(cfg: Config, env: Env, w: World, wish: Wish, bypass: bool, listing: map<string, bool>)
    requires !(env.reachable && wish == Wish(true, true))
    ensures NoSuccess(w, ActOnHost(cfg, env, w, wish, bypass, listing).w)
  {
    hide ClearWakeState, ShutdownHost, PursueWake, Recorded;
    ClearWakeFrame(env, w);
    ShutdownNoSuccess(cfg, env, ClearWakeState(env, w).w, listing, bypass);
    PursueNoSuccess(cfg, env, w);
  }

  /** A success is recorded exactly when a wake is in progress, the tick decides to keep a
      reachable host on, and its next three operations succeed; the time of the last packet
      then survives exactly when one of the first two removals after that fails. */
  lemma SuccessExactly(cfg: Config, env: Env, w: World)
    ensures var d, w' := Decided(cfg, env, w.(ops := 0)), NextTick(cfg, env, w).w;
      var n := d.w.ops;
      && (!NoSuccess(w, w') <==>
            && env.trusted && env.reachable && d.Ok? && d.value.wish == Wish(true, true) && WakeLastSent in w.kv
            && env.ok(n) && env.ok(n + 1) && env.ok(n + 2))
      && (!NoSuccess(w, w') ==> (WakeLastSent in w'.kv <==> !env.ok(n + 3) || !env.ok(n + 4)))
  {
    ActDecidesSuccess(cfg, env, w);
    hide NextTick, Decided, ActOnHost, Listing, NoSuccess;
    var d := Decided(cfg, env, w.(ops := 0));
    if env.trusted && d.Ok? {
      if env.reachable && d.value.wish == Wish(true, true) {
        ActRecords(cfg, env, d.w, d.value.safety.bypass, Listing(env));
      } else {
        OtherActsRecordNothing(cfg, env, d.w, d.value.wish, d.value.safety.bypass, Listing(env));
      }
    }
  }

  /** Only acting on the host can record a success or clear the time of the last packet. */
  lemma ActDecidesSuccess(cfg: Config, env: Env, w: World)
    ensures var d, w' := Decided(cfg, env, w.(ops := 0)), NextTick(cfg, env, w).w;
      && SameKey(w.kv, d.w.kv, WakeLastSent)
      && if env.trusted && d.Ok? then
           var a := ActOnHost(cfg, env, d.w, d.value.wish, d.value.safety.bypass, Listing(env));
           (NoSuccess(w, w') <==> NoSuccess(d.w, a.w)) && SameKey(a.w.kv, w'.kv, WakeLastSent)
         else NoSuccess(w, w')
  {
    var idle := w.(ops := 0);
    TickActs(cfg, env, idle);
    hide Decided, Tick, ActOnHost, GuestPass, Listing, Recorded;
    var d := Decided(cfg, env, idle);
    assert SameKey(w.kv, d.w.kv, WakeLastSent) by { assert WakeLastSent !in WEATHER_KEYS; }
    if env.trusted && d.Ok? {
      var a := ActOnHost(cfg, env, d.w, d.value.wish, d.value.safety.bypass, Listing(env));
      GuestPassFrame(cfg, env, a.w, d.value.intro.lastTick, Listing(env));
      GuestWorkNoSuccess(a.w, GuestPass(cfg, env, a.w, d.value.intro.lastTick, Listing(env)).w);
    }
  }

  /** After a tick that recorded a success, the next tick that fails nowhere and wants the
      reachable host on records it again if and only if one of those two removals failed. */
  lemma RecordedAgainExactly(cfg: Config, env: Env, w: World, next: Env)
    requires !NoSuccess(w, NextTick(cfg, env, w).w)
    requires AllOK(next) && next.trusted && next.reachable && next.listing.Some?
    requires Wanted(cfg, next, NextTick(cfg, env, w).w)
    ensures var w1, n := NextTick(cfg, env, w).w, Decided(cfg, env, w.(ops := 0)).w.ops;
      !NoSuccess(w1, NextTick(cfg, next, w1).w) <==> !env.ok(n + 3) || !env.ok(n + 4)
  {
    hide Decided, NextTick, NoSuccess, ForcedOff, PlainWish;
    var w1 := NextTick(cfg, env, w).w;
    SuccessExactly(cfg, env, w);
    SuccessExactly(cfg, next, w1);
    DecidedExactly(cfg, next, w1);
  }
}
