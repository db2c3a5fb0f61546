/** Weather enforcement over runs of ticks: the Warning countdown and the Danger grace. */
module EngineSafety {
  import opened Prelude
  import opened Schedules
  import opened Overrides
  import opened EngineSpec
  import opened EngineFrames
  import Weather

  // ----- the Warning countdown -----

  /** What one weatherSafety evaluation saw and did: the level under Warning (or the mode
      not enforce), an ignore_weather override in effect, Danger, whether it ended without
      a store error, whether it removed the warning mark, and whether it forced off. */
  datatype Eval = Eval(now: int, below: bool, ignored: bool, danger: bool, done: bool, erased: bool, force: bool)

  function Ignored(env: Env): bool {
    EffectiveOverrideOf(env.rows, HOST, env.now, {IgnoreWeather}).Some?
  }

  function EvalAt(cfg: Config, env: Env, w: World): Eval {
    var s := WeatherSafety(cfg, env, w);
    Eval(env.now, BelowWarning(cfg, env), Ignored(env), env.level == Weather.Danger, s.Ok?,
         WarningSince !in s.w.kv, s.Ok? && s.value.forceOff)
  }

  /** The evaluation a tick makes, if it gets that far. */
  function EvalOf(cfg: Config, env: Env, w: World): Option<Eval> {
    var p := Prologue(cfg, env, w.(ops := 0));
    if env.trusted && p.Ok? then Some(EvalAt(cfg, env, p.w)) else None
  }

  /** All evaluations of a run, in order. */
  ghost function Evals(cfg: Config, w: World, envs: seq<Env>): seq<Eval> {
    if envs == [] then []
    else
      var rest := envs[..|envs| - 1];
      var e := EvalOf(cfg, envs[|envs| - 1], After(cfg, w, rest));
      Evals(cfg, w, rest) + if e.Some? then [e.value] else []
  }

  /** An evaluation that saw Warning with no ignore override. */
  predicate SawWarning(e: Eval) { !e.below && !e.ignored && !e.danger && e.done }

  /** An evaluation that saw less than Warning and removed the mark. */
  predicate Calmed(e: Eval) { e.below && e.erased }

  /** Every evaluation in h[a..b) saw Warning or higher, or failed to record that it did not. */
  ghost predicate NotCalmed(h: seq<Eval>, a: int, b: int) {
    forall k :: a <= k < b && 0 <= k < |h| ==> !Calmed(h[k])
  }

  /** The countdown as the store keeps it. */
  function Mark(h: seq<Eval>): Option<int> {
    if h == [] then None
    else
      var e, m := h[|h| - 1], Mark(h[..|h| - 1]);
      if Calmed(e) then None
      else if SawWarning(e) && m.None? then Some(e.now)
      else m
  }

  lemma StateSinceEffect(env: Env, w: World, k: Key)
    ensures var r := StateSince(env, w, k);
      && Touches(w, r.w, {k}) && SameLogs(w, r.w)
      && (r.Fail? ==> r.w.kv == w.kv)
      && (r.Ok? ==> k in r.w.kv && r.w.kv[k] == r.value && r.value == if k in w.kv then w.kv[k] else env.now)
  {
  }

  lemma ClearWeatherEffect(env: Env, w: World)
    ensures var r := ClearWeatherState(env, w);
      (WarningSince in r.w.kv ==> WarningSince in w.kv && r.w.kv[WarningSince] == w.kv[WarningSince])
      && (r.Ok? ==> WarningSince !in r.w.kv && DangerGrace !in r.w.kv)
      && (DangerGrace in r.w.kv ==> DangerGrace in w.kv && r.w.kv[DangerGrace] == w.kv[DangerGrace])
  {
  }

  lemma SafetyEffect(cfg: Config, env: Env, w: World)
    ensures var e, r := EvalAt(cfg, env, w), WeatherSafety(cfg, env, w);
      && (Calmed(e) ==> WarningSince !in r.w.kv)
      && (SawWarning(e) ==>
            && WarningSince in r.w.kv
            && r.w.kv[WarningSince] == (if WarningSince in w.kv then w.kv[WarningSince] else env.now)
            && (e.force <==> env.now - r.w.kv[WarningSince] >= cfg.countdown))
      && (!Calmed(e) && !SawWarning(e) ==> SameKey(w.kv, r.w.kv, WarningSince))
      && (e.force ==> !e.below && !e.ignored && e.done)
      && (r.Ok? && r.value.bypass ==> e.force && e.danger)
  {
    hide ClearWeatherState, StateSince;
    ClearWeatherEffect(env, w);
    if !BelowWarning(cfg, env) {
      var q := Query(env, w, HOST, env.now, {IgnoreWeather});
      StateSinceEffect(env, q.w, WarningSince);
    }
  }

  /** After weatherSafety nothing in a tick touches the warning mark. */
  lemma RestKeepsMark(cfg: Config, env: Env, w: World, intro: Intro, wish: Wish, safety: Safety, r: Res<bool>)
    requires var a := ActOnHost(cfg, env, w, wish, safety.bypass, Listing(env));
      if a.Fail? then r == Fail(a.w)
      else if !env.reachable || a.value then r == Ok(false, a.w)
      else r == GuestPass(cfg, env, a.w, intro.lastTick, Listing(env))
    ensures SameKey(w.kv, r.w.kv, WarningSince)
  {
    hide ActOnHost, GuestPass, Listing;
    var a := ActOnHost(cfg, env, w, wish, safety.bypass, Listing(env));
    ActFrame(cfg, env, w, wish, safety.bypass, Listing(env));
    assert SameKey(w.kv, a.w.kv, WarningSince) by { assert WarningSince !in HOST_KEYS; }
    GuestPassFrame(cfg, env, a.w, intro.lastTick, Listing(env));
  }

  lemma TickIsSafety(cfg: Config, env: Env, w: World)
    ensures var p, w' := Prologue(cfg, env, w.(ops := 0)), NextTick(cfg, env, w).w;
      && (!env.trusted || p.Fail? ==> SameKey(w.kv, w'.kv, WarningSince))
      && (env.trusted && p.Ok? ==> p.w.kv == w.kv && SameKey(WeatherSafety(cfg, env, p.w).w.kv, w'.kv, WarningSince))
  {
    hide Prologue, WeatherSafety, DecideHost, ActOnHost, GuestPass, Listing, Tick;
    var st := TickStages(cfg, env, w.(ops := 0));
    if st.Acting? {
      RestKeepsMark(cfg, env, st.w3, st.intro, st.wish, st.safety, Tick(cfg, env, w.(ops := 0)));
    }
  }

  lemma TickMark(cfg: Config, env: Env, w: World)
    ensures var e, w' := EvalOf(cfg, env, w), NextTick(cfg, env, w).w;
      && (e.Some? ==> e.value.now == env.now)
      && (e.None? ==> SameKey(w.kv, w'.kv, WarningSince))
      && (e.Some? && Calmed(e.value) ==> WarningSince !in w'.kv)
      && (e.Some? && SawWarning(e.value) ==>
            && WarningSince in w'.kv
            && w'.kv[WarningSince] == (if WarningSince in w.kv then w.kv[WarningSince] else env.now)
            && (e.value.force <==> env.now - w'.kv[WarningSince] >= cfg.countdown))
      && (e.Some? && !Calmed(e.value) && !SawWarning(e.value) ==> SameKey(w.kv, w'.kv, WarningSince))
  {
    hide Prologue, WeatherSafety, NextTick;
    var p := Prologue(cfg, env, w.(ops := 0));
    TickIsSafety(cfg, env, w);
    if env.trusted && p.Ok? { SafetyEffect(cfg, env, p.w); }
  }

  ghost predicate KeepsMark(kv: KV, m: Option<int>) {
    if m.Some? then WarningSince in kv && kv[WarningSince] == m.value else WarningSince !in kv
  }

  lemma MarkAppend(h: seq<Eval>, e: Eval)
    ensures Mark(h + [e]) ==
      if Calmed(e) then None else if SawWarning(e) && Mark(h).None? then Some(e.now) else Mark(h)
  {
    assert (h + [e])[..|h|] == h;
  }

  /** In every run the stored warning mark is the one its evaluations account for. */
  lemma {:induction false} MarkTracksEvals(cfg: Config, w: World, envs: seq<Env>)
    requires WarningSince !in w.kv
    ensures KeepsMark(After(cfg, w, envs).kv, Mark(Evals(cfg, w, envs)))
  {
    hide NextTick, EvalOf;
    if envs != [] {
      var rest, env := envs[..|envs| - 1], envs[|envs| - 1];
      MarkTracksEvals(cfg, w, rest);
      TickMark(cfg, env, After(cfg, w, rest));
      var e, h := EvalOf(cfg, env, After(cfg, w, rest)), Evals(cfg, w, rest);
      if e.Some? {
        assert Evals(cfg, w, envs) == h + [e.value];
        MarkAppend(h, e.value);
      } else {
        assert Evals(cfg, w, envs) == h;
      }
    }
  }

  /** h[i] is the first un-ignored Warning that nothing has calmed since. */
  ghost predicate FirstUncalmed(h: seq<Eval>, i: int) {
    && 0 <= i < |h| && SawWarning(h[i]) && NotCalmed(h, i + 1, |h|)
    && forall j :: 0 <= j < i && SawWarning(h[j]) ==> !NotCalmed(h, j + 1, |h|)
  }

  /** The mark is the time of the first un-ignored Warning since the last calm. */
  lemma {:induction false} MarkIsFirstWarning(h: seq<Eval>)
    ensures Mark(h).Some? <==> exists i :: 0 <= i < |h| && SawWarning(h[i]) && NotCalmed(h, i + 1, |h|)
    ensures Mark(h).Some? ==> exists i :: FirstUncalmed(h, i) && h[i].now == Mark(h).value
  {
    if h != [] {
      var n := |h| - 1;
      var rest, e := h[..n], h[n];
      MarkIsFirstWarning(rest);
      forall a | 0 <= a <= n ensures NotCalmed(h, a, n + 1) <==> NotCalmed(rest, a, n) && !Calmed(e) {
        assert forall k :: 0 <= k < n ==> h[k] == rest[k];
      }
      if Calmed(e) {
        forall i | 0 <= i < |h| && SawWarning(h[i]) ensures !NotCalmed(h, i + 1, |h|) {}
      } else if Mark(rest).Some? {
        var i :| FirstUncalmed(rest, i) && rest[i].now == Mark(rest).value;
        assert h[i] == rest[i];
        forall j | 0 <= j < i && SawWarning(h[j]) ensures !NotCalmed(h, j + 1, |h|) { assert h[j] == rest[j]; }
        assert FirstUncalmed(h, i);
      } else if SawWarning(e) {
        assert NotCalmed(h, n + 1, |h|);
        forall j | 0 <= j < n && SawWarning(h[j]) ensures !NotCalmed(h, j + 1, |h|) { assert h[j] == rest[j]; }
        assert FirstUncalmed(h, n);
      } else {
        forall i | 0 <= i < |h| && SawWarning(h[i]) ensures !NotCalmed(h, i + 1, |h|) {
          assert i < n && h[i] == rest[i];
        }
      }
    }
  }

  /** A mark at least `countdown` old goes back to an un-ignored, uncalmed Warning. */
  lemma OldMarkHasWarning(h: seq<Eval>, now: int, countdown: int)
    requires Mark(h).Some? && now - Mark(h).value >= countdown
    ensures exists i :: 0 <= i < |h| && SawWarning(h[i]) && NotCalmed(h, i + 1, |h|) && h[i].now + countdown <= now
  {
    MarkIsFirstWarning(h);
  }

  /** In a history with non-decreasing times such a Warning also makes the mark that old. */
  lemma MarkDecidesAge(h: seq<Eval>, now: int, countdown: int)
    requires Mark(h).Some? && ClockKept(h)
    ensures now - Mark(h).value >= countdown <==>
      exists i :: 0 <= i < |h| && SawWarning(h[i]) && NotCalmed(h, i + 1, |h|) && h[i].now + countdown <= now
  {
    MarkIsFirstWarning(h);
    hide SawWarning, Calmed, Mark;
    var first :| FirstUncalmed(h, first) && h[first].now == Mark(h).value;
    forall i | 0 <= i < |h| && SawWarning(h[i]) && NotCalmed(h, i + 1, |h|) ensures h[first].now <= h[i].now {
      assert first <= i;
    }
  }

  ghost predicate ClockKept(h: seq<Eval>) { forall i, j :: 0 <= i < j < |h| ==> h[i].now <= h[j].now }

  /** The countdown is exact: an un-ignored Warning forces off if and only if some
      un-ignored Warning at least the countdown earlier has not been calmed since. */
  lemma WarningForcesAfterCountdown(cfg: Config, w: World, envs: seq<Env>, env: Env)
    requires WarningSince !in w.kv && ClockKept(Evals(cfg, w, envs + [env]))
    requires EvalOf(cfg, env, After(cfg, w, envs)).Some? && SawWarning(EvalOf(cfg, env, After(cfg, w, envs)).value)
    ensures var h := Evals(cfg, w, envs + [env]);
      EvalOf(cfg, env, After(cfg, w, envs)).value.force <==>
        exists i :: 0 <= i < |h| && SawWarning(h[i]) && NotCalmed(h, i + 1, |h|) && h[i].now + cfg.countdown <= env.now
  {
    hide EvalOf, NextTick, SawWarning, Calmed, NotCalmed;
    assert (envs + [env])[..|envs|] == envs;
    TickMark(cfg, env, After(cfg, w, envs));
    MarkTracksEvals(cfg, w, envs + [env]);
    MarkDecidesAge(Evals(cfg, w, envs + [env]), env.now, cfg.countdown);
  }

  /** The "only if" half needs nothing of the clock. */
  lemma ForcedMeansCountdown(cfg: Config, w: World, envs: seq<Env>, env: Env)
    requires WarningSince !in w.kv
    requires var e := EvalOf(cfg, env, After(cfg, w, envs)); e.Some? && SawWarning(e.value) && e.value.force
    ensures var h := Evals(cfg, w, envs + [env]);
      exists i :: 0 <= i < |h| && SawWarning(h[i]) && NotCalmed(h, i + 1, |h|) && h[i].now + cfg.countdown <= env.now
  {
    hide EvalOf, NextTick, SawWarning, Calmed, NotCalmed;
    assert (envs + [env])[..|envs|] == envs;
    TickMark(cfg, env, After(cfg, w, envs));
    MarkTracksEvals(cfg, w, envs + [env]);
    OldMarkHasWarning(Evals(cfg, w, envs + [env]), env.now, cfg.countdown);
  }

  // ----- safety, then override, then schedule -----

  /** The configuration has a schedule of this name and it is on. */
  ghost predicate ScheduledOn(cfg: Config, name: string, t: int) {
    name in cfg.schedules && IsOn(cfg.zone, cfg.schedules[name], t)
  }

  lemma NoScheduleIsOff(z: Zone, t: int)
    ensures !IsOn(z, [], t)
  {
  }

  /** No on/off/pause row of the host is active. */
  ghost predicate NoPowerRow(rows: seq<Override>, now: int) {
    forall o :: o in rows && o.target == HOST && o.action in POWER ==> !ActiveAt(o, now)
  }

  /** The host's wish, by who decides: the weather before any override, the newest active
      on/off/pause row before the schedule and the guests, those only without such a row. */
  lemma HostPriority(cfg: Config, env: Env, w: World, wantsOn: bool, safety: Safety)
    requires AllOK(env) && ValidRows(env.rows) && |Where(Matching(HOST, env.now, POWER), env.rows)| <= LIMIT
    ensures var r := DecideHost(cfg, env, w, wantsOn, safety);
      && r.Ok?
      && (safety.forceOff ==> r.value == Wish(false, true))
      && (!safety.forceOff ==> forall o :: Governs(env.rows, HOST, env.now, POWER, o) ==>
            && (o.action == On ==> r.value == Wish(true, true))
            && (o.action == Off ==> r.value == Wish(false, true))
            && (o.action == Pause ==> !r.value.act))
      && (!safety.forceOff && NoPowerRow(env.rows, env.now) ==>
            r.value == Wish(ScheduledOn(cfg, cfg.hostSchedule, env.now) || wantsOn, true))
  {
    NoScheduleIsOff(cfg.zone, env.now);
    hide IsOn, EffectiveOverrideOf;
    EffectiveNone(env.rows, HOST, env.now, POWER);
    forall o | Governs(env.rows, HOST, env.now, POWER, o)
      ensures EffectiveOverrideOf(env.rows, HOST, env.now, POWER) == Some(o)
    { GoverningRowIsFound(env.rows, HOST, env.now, POWER, o); }
  }
}
