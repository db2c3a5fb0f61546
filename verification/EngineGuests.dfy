/** Guests over runs of ticks: the edge-triggered engine against the level-triggered one,
    and the windows of time its passes handle. */
module EngineGuests {
  import opened Prelude
  import opened Signals
  import opened Schedules
  import opened Overrides
  import opened Guests
  import opened Ordering
  import opened EngineSpec
  import opened EngineFrames
  import opened EngineSafety
  import opened EngineShutdown
  import opened Coverage

  // ----- what a pass decides for one guest -----

  predicate Trig(cfg: Config, env: Env, lastTick: Option<int>, g: GuestConfig) {
    lastTick.None?
    || |CrossingsOf(cfg.zone, ScheduleOf(cfg, g.schedule), lastTick.value, env.now)| > 0
    || !SameOverride(EffectiveOverride(env.rows, g.name, lastTick.value), EffectiveOverride(env.rows, g.name, env.now))
  }

  /** The level-triggered target: what the guest should be at `now`. */
  function Target(cfg: Config, rows: seq<Override>, g: GuestConfig, now: int): Wish {
    GuestWish(cfg, g, EffectiveOverride(rows, g.name, now), now)
  }

  function Decide(cfg: Config, env: Env, lastTick: Option<int>, listing: map<string, bool>,
                  g: GuestConfig): Option<bool>
  {
    var wish := Target(cfg, env.rows, g, env.now);
    if g.alwaysOn || !Trig(cfg, env, lastTick, g) || !wish.act || g.name !in listing || listing[g.name] == wish.on
    then None else Some(wish.on)
  }

  /** The action for guest g that a decision stands for. */
  ghost predicate ActsAsDecided(a: Option<Planned>, d: Option<bool>, g: GuestConfig) {
    if d.None? then a == None else a.Some? && a.value.name == g.name && a.value.start == d.value
  }

  lemma PlanGuestDecides(cfg: Config, env: Env, w: World, lastTick: Option<int>, listing: map<string, bool>,
                         g: GuestConfig)
    ensures var r := PlanGuest(cfg, env, w, lastTick, listing, g);
      r.Ok? ==> ActsAsDecided(r.value, Decide(cfg, env, lastTick, listing, g), g)
  {
    hide EffectiveOverrideOf, CrossingsOf, WishFor, IsOn;
  }

  ghost predicate WellNamed(actions: map<string, Planned>, start: bool) {
    forall n :: n in actions ==> actions[n].name == n && actions[n].start == start
  }

  ghost predicate PlanExact(cfg: Config, env: Env, lastTick: Option<int>, listing: map<string, bool>, p: Plans, i: nat)
    requires i <= |cfg.guests|
  {
    && WellNamed(p.starts, true) && WellNamed(p.stops, false)
    && (forall j :: 0 <= j < i ==> var g := cfg.guests[j];
          && (g.name in p.starts <==> Decide(cfg, env, lastTick, listing, g) == Some(true))
          && (g.name in p.stops <==> Decide(cfg, env, lastTick, listing, g) == Some(false)))
    && (forall j :: i <= j < |cfg.guests| ==> cfg.guests[j].name !in p.starts && cfg.guests[j].name !in p.stops)
  }

  lemma PlanStep(cfg: Config, env: Env, lastTick: Option<int>, listing: map<string, bool>, p: Plans, i: nat,
                 a: Option<Planned>)
    requires GoodConfig(cfg) && i < |cfg.guests| && PlanExact(cfg, env, lastTick, listing, p, i)
    requires ActsAsDecided(a, Decide(cfg, env, lastTick, listing, cfg.guests[i]), cfg.guests[i])
    ensures PlanExact(cfg, env, lastTick, listing, AddPlan(p, a), i + 1)
  {
    hide Decide;
  }

  lemma {:induction false} PlanIsExact(cfg: Config, env: Env, w: World, lastTick: Option<int>,
                                       listing: map<string, bool>, i: nat, p: Plans)
    requires GoodConfig(cfg) && i <= |cfg.guests| && PlanExact(cfg, env, lastTick, listing, p, i)
    ensures var r := PlanFrom(cfg, env, w, lastTick, listing, i, p);
      r.Ok? ==> PlanExact(cfg, env, lastTick, listing, r.value, |cfg.guests|)
    decreases |cfg.guests| - i
  {
    hide PlanGuest, Decide, PlanExact, AddPlan, GoodConfig, ActsAsDecided;
    if i < |cfg.guests| {
      var a := PlanGuest(cfg, env, w, lastTick, listing, cfg.guests[i]);
      PlanGuestDecides(cfg, env, w, lastTick, listing, cfg.guests[i]);
      if a.Ok? {
        PlanStep(cfg, env, lastTick, listing, p, i, a.value);
        PlanIsExact(cfg, env, a.w, lastTick, listing, i + 1, AddPlan(p, a.value));
      }
    }
  }

  // ----- what a completed pass does -----

  function Applied(status: map<string, bool>, c: Call): map<string, bool> {
    if c.GuestCall? && c.outcome == TaskOK then status[c.name := c.start] else status
  }

  /** The running state of guests after calls whose tasks finished OK. */
  function Apply(status: map<string, bool>, calls: seq<Call>): map<string, bool>
    decreases |calls|
  {
    if calls == [] then status
    else
      Apply(Applied(status, calls[0]), calls[1..])
  }

  function CallsFor(names: seq<string>, actions: map<string, Planned>): seq<Call> {
    if names == [] then []
    else if names[0] in actions then
      [GuestCall(actions[names[0]].name, actions[names[0]].start, TaskOK)] + CallsFor(names[1..], actions)
    else CallsFor(names[1..], actions)
  }

  lemma {:induction false} ExecuteAllExact(cfg: Config, env: Env, w: World, names: seq<string>,
                                           actions: map<string, Planned>, failed: nat)
    requires !cfg.dryRun
    ensures var r := ExecuteAll(cfg, env, w, names, actions, failed);
      r.1 >= failed && (r.1 == failed ==> r.0.calls == w.calls + CallsFor(names, actions))
    decreases |names|
  {
    if names != [] {
      if names[0] in actions {
        var r := Execute(cfg, env, w, actions[names[0]]);
        ExecuteAllExact(cfg, env, r.w, names[1..], actions, if r.Fail? then failed + 1 else failed);
      } else {
        ExecuteAllExact(cfg, env, w, names[1..], actions, failed);
      }
    }
  }

  lemma {:induction false} ApplyCallsFor(status: map<string, bool>, names: seq<string>, actions: map<string, Planned>,
                                         start: bool, n: string)
    requires WellNamed(actions, start) && n in status
    ensures var after := Apply(status, CallsFor(names, actions));
      n in after && after[n] == if n in names && n in actions then start else status[n]
    decreases |names|
  {
    if names != [] {
      if names[0] in actions {
        var status' := status[names[0] := start];
        ApplyCallsFor(status', names[1..], actions, start, n);
        assert CallsFor(names, actions)[1..] == CallsFor(names[1..], actions);
      } else {
        ApplyCallsFor(status, names[1..], actions, start, n);
      }
    }
  }

  lemma {:induction false} ApplyJoin(status: map<string, bool>, a: seq<Call>, b: seq<Call>)
    ensures Apply(status, a + b) == Apply(Apply(status, a), b)
    decreases |a|
  {
    if a == [] {
      assert a + b == b;
    } else {
      assert (a + b)[1..] == a[1..] + b;
      ApplyJoin(Applied(status, a[0]), a[1..], b);
    }
  }

  function NewCalls(w: World, w': World): seq<Call> {
    if |w.calls| <= |w'.calls| then w'.calls[|w.calls|..] else []
  }

  /** The plans of a pass that completed, and the calls they led to. */
  lemma PassCalls(cfg: Config, env: Env, w: World, lastTick: Option<int>, listing: map<string, bool>) returns (p: Plans)
    requires GoodConfig(cfg) && !cfg.dryRun && GuestPass(cfg, env, w, lastTick, listing).Ok?
    ensures PlanExact(cfg, env, lastTick, listing, p, |cfg.guests|)
    ensures GuestPass(cfg, env, w, lastTick, listing).w.calls
         == w.calls + (CallsFor(Reverse(cfg.order), p.stops) + CallsFor(cfg.order, p.starts))
  {
    var empty := Plans(map[], map[]);
    PlanIsExact(cfg, env, w, lastTick, listing, 0, empty);
    PlanFrame(cfg, env, w, lastTick, listing, 0, empty);
    hide PlanFrom, ExecuteAll, CallsFor, Reverse, PlanExact;
    hide GoodConfig;
    var r := PlanFrom(cfg, env, w, lastTick, listing, 0, empty);
    p := r.value;
    ExecutionCalls(cfg, env, r.w, p);
  }

  lemma ExecutionCalls(cfg: Config, env: Env, w: World, p: Plans)
    requires !cfg.dryRun
    ensures var s := ExecuteAll(cfg, env, w, Reverse(cfg.order), p.stops, 0);
      var r := ExecuteAll(cfg, env, s.0, cfg.order, p.starts, s.1);
      r.1 == 0 ==> r.0.calls == w.calls + (CallsFor(Reverse(cfg.order), p.stops) + CallsFor(cfg.order, p.starts))
  {
    hide ExecuteAll, CallsFor, Reverse;
    ExecuteAllExact(cfg, env, w, Reverse(cfg.order), p.stops, 0);
    var (w2, f2) := ExecuteAll(cfg, env, w, Reverse(cfg.order), p.stops, 0);
    ExecuteAllExact(cfg, env, w2, cfg.order, p.starts, f2);
  }

  /** The plans applied to any record of states that has the guest, listed or not. */
  lemma StatusAfterPlans(cfg: Config, env: Env, lastTick: Option<int>, listing: map<string, bool>, p: Plans, i: nat,
                         status: map<string, bool>)
    requires GoodConfig(cfg) && PlanExact(cfg, env, lastTick, listing, p, |cfg.guests|) && i < |cfg.guests|
    requires cfg.guests[i].name in status
    ensures var n, d := cfg.guests[i].name, Decide(cfg, env, lastTick, listing, cfg.guests[i]);
      var after := Apply(status, CallsFor(Reverse(cfg.order), p.stops) + CallsFor(cfg.order, p.starts));
      n in after && after[n] == if d.Some? then d.value else status[n]
  {
    hide Decide, Apply, CallsFor, Reverse;
    var n := cfg.guests[i].name;
    var mid := Apply(status, CallsFor(Reverse(cfg.order), p.stops));
    ApplyJoin(status, CallsFor(Reverse(cfg.order), p.stops), CallsFor(cfg.order, p.starts));
    ReverseMembers(cfg.order, n);
    ApplyCallsFor(status, Reverse(cfg.order), p.stops, false, n);
    ApplyCallsFor(mid, cfg.order, p.starts, true, n);
  }

  function LastTickOf(kv: KV): Option<int> { if LastTick in kv then Some(kv[LastTick]) else None }

  /** A tick that completed its guest pass. */
  predicate Completed(r: Res<bool>) { r.Ok? && r.value }

  /** A completed tick is a guest pass with the last tick stored before it. */
  lemma CompletedIsPass(cfg: Config, env: Env, w: World) returns (a: World)
    requires Completed(NextTick(cfg, env, w))
    ensures env.trusted && env.reachable && env.listing.Some? && a.calls == w.calls
    ensures NextTick(cfg, env, w) == GuestPass(cfg, env, a, LastTickOf(w.kv), env.listing.value)
  {
    hide Tick, Prologue, WeatherSafety, DecideHost, ActOnHost, GuestPass;
    var st := TickStages(cfg, env, w.(ops := 0));
    var h := ActOnHost(cfg, env, st.w3, st.wish, st.safety.bypass, Listing(env));
    a := h.w;
    WeatherSafetyFrame(cfg, env, st.w1);
    ActReadyNotTold(cfg, env, st.w3, st.wish, st.safety.bypass, Listing(env));
  }

  /** The states a completed live pass makes of any record of states: what it decided. */
  lemma PassApplied(cfg: Config, env: Env, w: World, i: nat, status: map<string, bool>)
    requires GoodConfig(cfg) && !cfg.dryRun && i < |cfg.guests| && cfg.guests[i].name in status
    requires Completed(NextTick(cfg, env, w))
    ensures env.reachable && env.listing.Some?
    ensures var n := cfg.guests[i].name;
      var d := Decide(cfg, env, LastTickOf(w.kv), env.listing.value, cfg.guests[i]);
      var after := Apply(status, NewCalls(w, NextTick(cfg, env, w).w));
      n in after && after[n] == if d.Some? then d.value else status[n]
  {
    hide NextTick, GuestPass, Decide, Apply, CallsFor, PlanExact, GoodConfig;
    var a := CompletedIsPass(cfg, env, w);
    var p := PassCalls(cfg, env, a, LastTickOf(w.kv), env.listing.value);
    assert NewCalls(w, NextTick(cfg, env, w).w)
        == CallsFor(Reverse(cfg.order), p.stops) + CallsFor(cfg.order, p.starts);
    StatusAfterPlans(cfg, env, LastTickOf(w.kv), env.listing.value, p, i, status);
  }

  /** Exactly what a completed live pass leaves each managed guest in: its target when it
      was triggered and not paused, otherwise the state it was found in. */
  lemma PassOutcome(cfg: Config, env: Env, w: World, i: nat)
    requires GoodConfig(cfg) && !cfg.dryRun && i < |cfg.guests| && !cfg.guests[i].alwaysOn
    requires env.listing.Some? && cfg.guests[i].name in env.listing.value
    requires Completed(NextTick(cfg, env, w))
    ensures var g, listing := cfg.guests[i], env.listing.value;
      var wish := Target(cfg, env.rows, g, env.now);
      var after := Apply(listing, NewCalls(w, NextTick(cfg, env, w).w));
      g.name in after
      && after[g.name] == if Trig(cfg, env, LastTickOf(w.kv), g) && wish.act then wish.on else listing[g.name]
  {
    hide NextTick, Trig, Target, Apply, GoodConfig;
    PassApplied(cfg, env, w, i, env.listing.value);
  }

  /** So after a completed pass an unpaused guest is in its target state if and only if it
      was triggered or already there. */
  lemma TargetReachedExactly(cfg: Config, env: Env, w: World, i: nat)
    requires GoodConfig(cfg) && !cfg.dryRun && i < |cfg.guests| && !cfg.guests[i].alwaysOn
    requires env.listing.Some? && cfg.guests[i].name in env.listing.value
    requires Completed(NextTick(cfg, env, w))
    requires Target(cfg, env.rows, cfg.guests[i], env.now).act
    ensures var g, listing := cfg.guests[i], env.listing.value;
      var wish := Target(cfg, env.rows, g, env.now);
      var after := Apply(listing, NewCalls(w, NextTick(cfg, env, w).w));
      g.name in after
      && (after[g.name] == wish.on <==> Trig(cfg, env, LastTickOf(w.kv), g) || listing[g.name] == wish.on)
  {
    hide NextTick, Trig, Target, Apply, GoodConfig;
    PassOutcome(cfg, env, w, i);
  }

  /** A guest's target, by who decides: its newest active row, or its schedule when it has
      none or that row is an ignore_weather row. */
  lemma GuestPriority(cfg: Config, rows: seq<Override>, g: GuestConfig, now: int)
    requires ValidRows(rows) && |Where(Matching(g.name, now, ANY), rows)| <= LIMIT
    ensures var target, scheduled := Target(cfg, rows, g, now), ScheduledOn(cfg, g.schedule, now);
      && (forall o :: Governs(rows, g.name, now, ANY, o) ==>
            && (o.action == On ==> target == Wish(true, true))
            && (o.action == Off ==> target == Wish(false, true))
            && (o.action == Pause ==> !target.act)
            && (o.action == IgnoreWeather ==> target == Wish(scheduled, true)))
      && ((forall o :: o in rows && o.target == g.name && o.action in ANY ==> !ActiveAt(o, now)) ==>
            target == Wish(scheduled, true))
  {
    NoScheduleIsOff(cfg.zone, now);
    hide IsOn, EffectiveOverrideOf;
    EffectiveNone(rows, g.name, now, ANY);
    forall o | Governs(rows, g.name, now, ANY, o) ensures EffectiveOverrideOf(rows, g.name, now, ANY) == Some(o) {
      GoverningRowIsFound(rows, g.name, now, ANY, o);
    }
  }

  // ----- last_tick -----

  /** last_tick moves to now on a completed pass and on no other occasion. */
  lemma LastTickMoves(cfg: Config, env: Env, w: World)
    ensures var r := NextTick(cfg, env, w);
      if Completed(r) then LastTickOf(r.w.kv) == Some(env.now) else LastTickOf(r.w.kv) == LastTickOf(w.kv)
  {
    hide Tick, Prologue, WeatherSafety, DecideHost, ActOnHost, GuestPass;
    var st := TickStages(cfg, env, w.(ops := 0));
    match st {
      case NoIntro =>
      case NoSafety(intro, w1) =>
        WeatherSafetyFrame(cfg, env, w1);
        assert SameKey(w1.kv, WeatherSafety(cfg, env, w1).w.kv, LastTick);
      case NoWish(intro, w1, safety, w2) =>
        WeatherSafetyFrame(cfg, env, w1);
        assert SameKey(w1.kv, w2.kv, LastTick);
      case Acting(intro, w1, safety, w2, wish, w3) =>
        WeatherSafetyFrame(cfg, env, w1);
        assert SameKey(w1.kv, w2.kv, LastTick);
        var a := ActOnHost(cfg, env, w3, wish, safety.bypass, Listing(env));
        ActFrame(cfg, env, w3, wish, safety.bypass, Listing(env));
        assert SameKey(w3.kv, a.w.kv, LastTick) by { assert LastTick !in HOST_KEYS; }
        GuestPassFrame(cfg, env, a.w, intro.lastTick, Listing(env));
    }
  }

  /** The clock never goes back behind last_tick when a pass completes. */
  ghost predicate Forward(cfg: Config, w: World, envs: seq<Env>) {
    envs == [] ||
    var before := After(cfg, w, envs[..|envs| - 1]);
    && Forward(cfg, w, envs[..|envs| - 1])
    && ((Completed(NextTick(cfg, envs[|envs| - 1], before)) && LastTick in before.kv) ==>
          before.kv[LastTick] <= envs[|envs| - 1].now)
  }

  /** The boundaries of s in the windows (last_tick, now] of the run's completed passes. */
  ghost function Handled(cfg: Config, s: Schedule, w: World, envs: seq<Env>): seq<Boundary> {
    if envs == [] then []
    else
      var rest, env := envs[..|envs| - 1], envs[|envs| - 1];
      var before := After(cfg, w, rest);
      Handled(cfg, s, w, rest) +
        if Completed(NextTick(cfg, env, before)) && LastTick in before.kv
        then CrossingsOf(cfg.zone, s, before.kv[LastTick], env.now) else []
  }

  /** No boundary is lost or handled twice, across failed passes and host-off stretches. */
  lemma {:induction false} WindowsPartitionTime(cfg: Config, s: Schedule, w: World, envs: seq<Env>)
    requires Fits(cfg.zone, s) && LastTick in w.kv && Forward(cfg, w, envs)
    ensures var w' := After(cfg, w, envs);
      && LastTick in w'.kv && w.kv[LastTick] <= w'.kv[LastTick]
      && Handled(cfg, s, w, envs) == CrossingsOf(cfg.zone, s, w.kv[LastTick], w'.kv[LastTick])
  {
    hide NextTick, CrossingsOf, Fits;
    if envs == [] {
      CrossingsSplit(cfg.zone, s, w.kv[LastTick], w.kv[LastTick], w.kv[LastTick]);
    } else {
      var rest, env := envs[..|envs| - 1], envs[|envs| - 1];
      var before := After(cfg, w, rest);
      WindowsPartitionTime(cfg, s, w, rest);
      LastTickMoves(cfg, env, before);
      if Completed(NextTick(cfg, env, before)) {
        CrossingsSplit(cfg.zone, s, w.kv[LastTick], before.kv[LastTick], env.now);
      }
    }
  }

  // ----- edge-triggered agrees with level-triggered -----

  /** What the completed passes of a run left: the last known guest states and the rows the
      last pass saw. */
  datatype Known = Known(status: map<string, bool>, rows: seq<Override>)

  /** The guest states known when a pass begins: as listed, or else as known before. */
  function Found(known: Option<Known>, listing: map<string, bool>): map<string, bool> {
    (if known.Some? then known.value.status else map[]) + listing
  }

  ghost function KnownAfter(cfg: Config, w: World, envs: seq<Env>): Option<Known> {
    if envs == [] then None
    else
      var rest, env := envs[..|envs| - 1], envs[|envs| - 1];
      var before, known := After(cfg, w, rest), KnownAfter(cfg, w, rest);
      var r := NextTick(cfg, env, before);
      if Completed(r) then Some(Known(Apply(Found(known, Listing(env)), NewCalls(before, r.w)), env.rows))
      else known
  }

  ghost predicate Managed(cfg: Config, i: int) { 0 <= i < |cfg.guests| && !cfg.guests[i].alwaysOn }

  /** Between two completed passes the clock moved on, overrides were created or cancelled
      with stamps strictly after last_tick, and every managed guest is listed if the later
      pass is triggered for it, and otherwise is as it was left, if it is listed. */
  ghost predicate Orderly(cfg: Config, env: Env, before: World, known: Option<Known>) {
    && ValidRows(env.rows)
    && (forall i :: Managed(cfg, i) && Trig(cfg, env, LastTickOf(before.kv), cfg.guests[i]) ==>
          cfg.guests[i].name in Listing(env))
    && (known.Some? && LastTick in before.kv ==>
          && before.kv[LastTick] <= env.now
          && Evolves(known.value.rows, env.rows, before.kv[LastTick])
          && forall i :: Managed(cfg, i) ==>
               var g := cfg.guests[i];
               Trig(cfg, env, LastTickOf(before.kv), g)
               || (g.name in known.value.status
                   && (g.name in Listing(env) ==> known.value.status[g.name] == Listing(env)[g.name])))
  }

  /** A run all of whose completed passes are orderly. Ticks in between may fail at any
      point, find the host off, or shut it down. */
  ghost predicate OrderlyRun(cfg: Config, w: World, envs: seq<Env>) {
    envs == [] ||
    var rest, env := envs[..|envs| - 1], envs[|envs| - 1];
    var before := After(cfg, w, rest);
    && OrderlyRun(cfg, w, rest)
    && (Completed(NextTick(cfg, env, before)) ==> Orderly(cfg, env, before, KnownAfter(cfg, w, rest)))
  }

  /** Every managed guest that is not paused is in the state schedules and overrides ask for. */
  ghost predicate Agrees(cfg: Config, known: Known, now: int) {
    forall i :: Managed(cfg, i) ==>
      var g := cfg.guests[i];
      var wish := Target(cfg, known.rows, g, now);
      g.name in known.status && (wish.act ==> known.status[g.name] == wish.on)
  }

  lemma EffectiveInRows(rows: seq<Override>, target: string, t: int)
    requires ValidRows(rows)
    ensures var o := EffectiveOverride(rows, target, t); o.Some? ==> o.value in rows
  {
    var o := EffectiveOverride(rows, target, t);
    if o.Some? { EffectiveExact(rows, target, t, ANY, o.value); }
  }

  lemma SameIdSameRow(rows: seq<Override>, a: Override, b: Override)
    requires ValidRows(rows) && a in rows && b in rows && a.id == b.id
    ensures a == b
  {
  }

  /** Without a trigger the target is what it was at the last tick. */
  lemma UntriggeredTargetStands(cfg: Config, env: Env, known: seq<Override>, lastTick: int, g: GuestConfig)
    requires Fits(cfg.zone, ScheduleOf(cfg, g.schedule)) && ValidRows(env.rows)
    requires lastTick <= env.now && Evolves(known, env.rows, lastTick)
    requires !Trig(cfg, env, Some(lastTick), g)
    ensures Target(cfg, known, g, lastTick) == Target(cfg, env.rows, g, env.now)
  {
    hide IsOn, CrossingsOf, EffectiveOverrideOf, Fits, Evolves;
    NoCrossingMeansConstant(cfg.zone, ScheduleOf(cfg, g.schedule), lastTick, env.now);
    assert CrossingsOf(cfg.zone, ScheduleOf(cfg, g.schedule), lastTick, env.now) == [];
    PastIsStable(known, env.rows, lastTick, g.name, lastTick, ANY);
    EffectiveInRows(env.rows, g.name, lastTick);
    EffectiveInRows(env.rows, g.name, env.now);
    var earlier, later := EffectiveOverride(env.rows, g.name, lastTick), EffectiveOverride(env.rows, g.name, env.now);
    if earlier.Some? { SameIdSameRow(env.rows, earlier.value, later.value); }
  }

  lemma PassAgrees(cfg: Config, env: Env, before: World, known: Option<Known>, i: nat)
    requires GoodConfig(cfg) && !cfg.dryRun && Completed(NextTick(cfg, env, before))
    requires i < |cfg.guests| && !cfg.guests[i].alwaysOn && Fits(cfg.zone, ScheduleOf(cfg, cfg.guests[i].schedule))
    requires env.listing.Some? && env.reachable && Orderly(cfg, env, before, known)
    requires LastTick in before.kv ==> known.Some? && Agrees(cfg, known.value, before.kv[LastTick])
    ensures var g := cfg.guests[i];
      var status := Apply(Found(known, Listing(env)), NewCalls(before, NextTick(cfg, env, before).w));
      var wish := Target(cfg, env.rows, g, env.now);
      g.name in status && (wish.act ==> status[g.name] == wish.on)
  {
    assert Managed(cfg, i);
    assert LastTick !in before.kv ==> Trig(cfg, env, LastTickOf(before.kv), cfg.guests[i]);
    hide NextTick, Target, Apply, GoodConfig, Fits, Evolves, Trig;
    PassApplied(cfg, env, before, i, Found(known, Listing(env)));
    if LastTick in before.kv && !Trig(cfg, env, LastTickOf(before.kv), cfg.guests[i]) {
      UntriggeredTargetStands(cfg, env, known.value.rows, before.kv[LastTick], cfg.guests[i]);
    }
  }

  /** The edge-triggered engine agrees with the level-triggered one: after every completed
      pass of an orderly live run from an empty store, every managed, unpaused guest is in
      its target state, although passes act only on boundaries and override changes. */
  lemma {:induction false} EdgeAgreesWithLevel(cfg: Config, w: World, envs: seq<Env>)
    requires GoodConfig(cfg) && !cfg.dryRun && LastTick !in w.kv && OrderlyRun(cfg, w, envs)
    requires forall i :: Managed(cfg, i) ==> Fits(cfg.zone, ScheduleOf(cfg, cfg.guests[i].schedule))
    ensures var known, w' := KnownAfter(cfg, w, envs), After(cfg, w, envs);
      && (LastTick in w'.kv <==> known.Some?)
      && (known.Some? ==> Agrees(cfg, known.value, w'.kv[LastTick]))
  {
    hide NextTick, Fits, Orderly, Agrees, Apply, Target;
    if envs != [] {
      var rest, env := envs[..|envs| - 1], envs[|envs| - 1];
      var before := After(cfg, w, rest);
      EdgeAgreesWithLevel(cfg, w, rest);
      LastTickMoves(cfg, env, before);
      if Completed(NextTick(cfg, env, before)) {
        AllAgree(cfg, env, before, KnownAfter(cfg, w, rest));
      }
    }
  }

  lemma AllAgree(cfg: Config, env: Env, before: World, known: Option<Known>)
    requires GoodConfig(cfg) && !cfg.dryRun && Completed(NextTick(cfg, env, before))
    requires forall i :: Managed(cfg, i) ==> Fits(cfg.zone, ScheduleOf(cfg, cfg.guests[i].schedule))
    requires Orderly(cfg, env, before, known)
    requires LastTick in before.kv ==> known.Some? && Agrees(cfg, known.value, before.kv[LastTick])
    ensures var status := Apply(Found(known, Listing(env)), NewCalls(before, NextTick(cfg, env, before).w));
      Agrees(cfg, Known(status, env.rows), env.now)
  {
    var a := CompletedIsPass(cfg, env, before);
    hide NextTick, Orderly, Fits, Target, Apply, Listing, NewCalls, GoodConfig, Found;
    forall i | Managed(cfg, i)
      ensures var g := cfg.guests[i];
        var status := Apply(Found(known, Listing(env)), NewCalls(before, NextTick(cfg, env, before).w));
        var wish := Target(cfg, env.rows, g, env.now);
        g.name in status && (wish.act ==> status[g.name] == wish.on)
    { PassAgrees(cfg, env, before, known, i); }
  }

  // ----- guests switched by hand -----

  /** A completed pass that decides nothing for a guest makes no call for it. */
  lemma UndecidedIsLeftAlone(cfg: Config, env: Env, w: World, i: nat)
    requires GoodConfig(cfg) && !cfg.dryRun && Completed(NextTick(cfg, env, w)) && i < |cfg.guests|
    requires env.listing.Some? && Decide(cfg, env, LastTickOf(w.kv), env.listing.value, cfg.guests[i]) == None
    ensures forall c :: c in NewCalls(w, NextTick(cfg, env, w).w) ==> c.GuestCall? && c.name != cfg.guests[i].name
  {
    hide NextTick, GuestPass, Decide, CallsFor, GoodConfig;
    var a := CompletedIsPass(cfg, env, w);
    var p := PassCalls(cfg, env, a, LastTickOf(w.kv), env.listing.value);
    var n := cfg.guests[i].name;
    assert NewCalls(w, NextTick(cfg, env, w).w)
        == CallsFor(Reverse(cfg.order), p.stops) + CallsFor(cfg.order, p.starts);
    CallsForNames(Reverse(cfg.order), p.stops, false, n);
    CallsForNames(cfg.order, p.starts, true, n);
  }

  /** Nor does one that is not triggered for it. */
  lemma UntriggeredIsLeftAlone(cfg: Config, env: Env, w: World, i: nat)
    requires GoodConfig(cfg) && !cfg.dryRun && Completed(NextTick(cfg, env, w)) && i < |cfg.guests|
    requires !Trig(cfg, env, LastTickOf(w.kv), cfg.guests[i])
    ensures forall c :: c in NewCalls(w, NextTick(cfg, env, w).w) ==> c.GuestCall? && c.name != cfg.guests[i].name
  {
    hide NextTick, Trig, GoodConfig, Target;
    var a := CompletedIsPass(cfg, env, w);
    UndecidedIsLeftAlone(cfg, env, w, i);
  }

  lemma {:induction false} CallsForNames(names: seq<string>, actions: map<string, Planned>, start: bool, n: string)
    requires WellNamed(actions, start) && n !in actions
    ensures forall c :: c in CallsFor(names, actions) ==> c.GuestCall? && c.name != n
    decreases |names|
  {
    if names != [] { CallsForNames(names[1..], actions, start, n); }
  }

  /** A completed pass without a trigger for g. */
  ghost predicate QuietTick(cfg: Config, env: Env, before: World, g: GuestConfig) {
    Completed(NextTick(cfg, env, before)) && !Trig(cfg, env, LastTickOf(before.kv), g)
  }

  /** Every tick of the run completes its pass without a trigger for g: no boundary of its
      schedule is crossed and its effective override stays the same row. */
  ghost predicate QuietFor(cfg: Config, w: World, envs: seq<Env>, g: GuestConfig) {
    forall k :: 0 <= k < |envs| ==> QuietTick(cfg, envs[k], After(cfg, w, envs[..k]), g)
  }

  /** A guest switched by hand is left alone over any number of such passes. */
  lemma {:induction false} SwitchedByHandIsLeftAlone(cfg: Config, w: World, envs: seq<Env>, i: nat)
    requires GoodConfig(cfg) && !cfg.dryRun && i < |cfg.guests| && QuietFor(cfg, w, envs, cfg.guests[i])
    ensures var w' := After(cfg, w, envs);
      && w.calls <= w'.calls
      && forall k :: |w.calls| <= k < |w'.calls| ==> w'.calls[k].GuestCall? && w'.calls[k].name != cfg.guests[i].name
  {
    hide NextTick, Trig, GoodConfig;
    if envs != [] {
      var rest, env := envs[..|envs| - 1], envs[|envs| - 1];
      var before := After(cfg, w, rest);
      assert forall k :: 0 <= k < |rest| ==> rest[..k] == envs[..k];
      assert QuietTick(cfg, envs[|rest|], After(cfg, w, envs[..|rest|]), cfg.guests[i]);
      SwitchedByHandIsLeftAlone(cfg, w, rest, i);
      UntriggeredIsLeftAlone(cfg, env, before, i);
      CompletedExtends(cfg, env, before);
      var after := NextTick(cfg, env, before).w;
      forall k | |w.calls| <= k < |after.calls|
        ensures after.calls[k].GuestCall? && after.calls[k].name != cfg.guests[i].name
      {
        if k >= |before.calls| {
          assert after.calls[k] == NewCalls(before, after)[k - |before.calls|];
          assert after.calls[k] in NewCalls(before, after);
        }
      }
    }
  }

  lemma CompletedExtends(cfg: Config, env: Env, w: World)
    requires Completed(NextTick(cfg, env, w))
    ensures w.calls <= NextTick(cfg, env, w).w.calls
  {
    hide NextTick, GuestPass;
    var a := CompletedIsPass(cfg, env, w);
    GuestPassFrame(cfg, env, a, LastTickOf(w.kv), env.listing.value);
  }

  // ----- coverage -----

  /** With a configuration the coverage check accepts, and no override on any guest, guests
      never ask for the host outside the host's own schedule. */
  lemma {:induction false} AcceptedGuestsFollowHost(cfg: Config, env: Env, w: World, i: nat)
    requires Uniform(cfg.zone) && i <= |cfg.guests|
    requires forall n :: n in cfg.schedules ==> ValidSchedule(cfg.schedules[n])
    requires forall j :: Managed(cfg, j) ==>
      && (cfg.guests[j].schedule in cfg.schedules ==>
            && cfg.hostSchedule in cfg.schedules
            && Included(cfg.zone, cfg.schedules[cfg.guests[j].schedule], cfg.schedules[cfg.hostSchedule]))
      && EffectiveOverride(env.rows, cfg.guests[j].name, env.now) == None
    requires var r := AnyWantsOn(cfg, env, w, i); r.Ok? && r.value
    ensures ScheduledOn(cfg, cfg.hostSchedule, env.now)
    decreases |cfg.guests| - i
  {
    hide IsOn, OnAt, EffectiveOverrideOf, ValidSchedule, Uniform;
    var g := cfg.guests[i];
    NoScheduleIsOff(cfg.zone, env.now);
    if g.alwaysOn {
      AcceptedGuestsFollowHost(cfg, env, w, i + 1);
    } else {
      assert Managed(cfg, i);
      if ScheduledOn(cfg, g.schedule, env.now) {
        IncludedIsOn(cfg.zone, cfg.schedules[g.schedule], cfg.schedules[cfg.hostSchedule], env.now);
      } else {
        AcceptedGuestsFollowHost(cfg, env, Query(env, w, g.name, env.now, ANY).w, i + 1);
      }
    }
  }

  lemma IncludedIsOn(z: Zone, inner: Schedule, outer: Schedule, t: int)
    requires Uniform(z) && ValidSchedule(inner) && ValidSchedule(outer) && Included(z, inner, outer)
    ensures IsOn(z, inner, t) ==> IsOn(z, outer, t)
  {
    UniformFits(z, inner);
    UniformFits(z, outer);
    LookBackSuffices(z, inner, t);
    LookBackSuffices(z, outer, t);
  }

  // ----- where edge-triggering misses -----

  /** A boundary of the named schedule lies in (from, upto]. */
  predicate Crossed(cfg: Config, name: string, from: int, upto: int) {
    name in cfg.schedules && CrossingsOf(cfg.zone, cfg.schedules[name], from, upto) != []
  }

  lemma CrossedExactly(cfg: Config, name: string, from: int, upto: int)
    requires from <= upto && (name in cfg.schedules ==> Fits(cfg.zone, cfg.schedules[name]))
    ensures Crossed(cfg, name, from, upto) <==>
      exists t :: from <= t <= upto && ScheduledOn(cfg, name, t) != ScheduledOn(cfg, name, from)
  {
    if name in cfg.schedules {
      NoCrossingMeansConstant(cfg.zone, cfg.schedules[name], from, upto);
      hide CrossingsOf, IsOn, Fits;
      assert forall t :: ScheduledOn(cfg, name, t) <==> IsOn(cfg.zone, cfg.schedules[name], t);
    }
  }

  lemma CrossedIsCounted(cfg: Config, name: string, from: int, upto: int)
    ensures Crossed(cfg, name, from, upto) <==> |CrossingsOf(cfg.zone, ScheduleOf(cfg, name), from, upto)| > 0
  {
    NothingCrossed(cfg.zone, from, upto);
    hide CrossingsOf;
    var crossed := CrossingsOf(cfg.zone, ScheduleOf(cfg, name), from, upto);
    assert |crossed| > 0 <==> crossed != [];
  }

  lemma SameOverrideExactly(rows: seq<Override>, target: string, a: int, b: int)
    requires ValidRows(rows)
    ensures var x, y := EffectiveOverride(rows, target, a), EffectiveOverride(rows, target, b);
      SameOverride(x, y) <==> x == y
  {
    EffectiveInRows(rows, target, a);
    EffectiveInRows(rows, target, b);
    hide EffectiveOverride;
    var x, y := EffectiveOverride(rows, target, a), EffectiveOverride(rows, target, b);
    if x.Some? && y.Some? && x.value.id == y.value.id { SameIdSameRow(rows, x.value, y.value); }
  }

  /** Exactly when a pass is triggered for a guest, in terms of its schedule and of the rows
      that answer: the schedule changes somewhere in the window, or another row, or no row, is
      in effect at its end than at its beginning. */
  lemma TriggeredExactly(cfg: Config, env: Env, lastTick: int, g: GuestConfig)
    requires ValidRows(env.rows) && lastTick <= env.now
    requires g.schedule in cfg.schedules ==> Fits(cfg.zone, cfg.schedules[g.schedule])
    ensures Trig(cfg, env, Some(lastTick), g) <==>
      || (exists t :: lastTick <= t <= env.now
            && ScheduledOn(cfg, g.schedule, t) != ScheduledOn(cfg, g.schedule, lastTick))
      || EffectiveOverride(env.rows, g.name, lastTick) != EffectiveOverride(env.rows, g.name, env.now)
    ensures Trig(cfg, env, None, g)
  {
    hide CrossingsOf, IsOn, EffectiveOverride, Fits, ScheduledOn, Crossed;
    CrossedExactly(cfg, g.schedule, lastTick, env.now);
    CrossedIsCounted(cfg, g.schedule, lastTick, env.now);
    SameOverrideExactly(env.rows, g.name, lastTick, env.now);
  }

  /** Exactly when a pass acts on an override made since last_tick: a guest's newest row,
      active now, triggers it if and only if the row is stamped after last_tick or a
      boundary was crossed. */
  lemma NewestRowTriggers(cfg: Config, env: Env, lastTick: int, g: GuestConfig, o: Override)
    requires ValidRows(env.rows) && o in env.rows && o.target == g.name
    requires forall r :: r in env.rows && r.target == g.name && r != o ==> Newer(o, r)
    requires ActiveAt(o, env.now) && lastTick <= env.now
    ensures Trig(cfg, env, Some(lastTick), g) <==>
      lastTick < o.createdAt || Crossed(cfg, g.schedule, lastTick, env.now)
  {
    NothingCrossed(cfg.zone, lastTick, env.now);
    hide CrossingsOf, EffectiveOverrideOf;
    var crossed := CrossingsOf(cfg.zone, ScheduleOf(cfg, g.schedule), lastTick, env.now);
    assert |crossed| > 0 <==> crossed != [];
    assert crossed != [] <==> Crossed(cfg, g.schedule, lastTick, env.now);
    NewestRowDecides(env.rows, env.now, o);
    if o.createdAt <= lastTick {
      NewestRowDecides(env.rows, lastTick, o);
    } else {
      var e := EffectiveOverride(env.rows, g.name, lastTick);
      EffectiveInRows(env.rows, g.name, lastTick);
      if e.Some? {
        EffectiveExact(env.rows, g.name, lastTick, ANY, e.value);
        if e.value.id == o.id { SameIdSameRow(env.rows, e.value, o); }
      }
    }
  }

  /** The same of cancelling: when a guest's newest row was cancelled by now and none of its
      other rows is active, the pass acts on that if and only if the cancellation is stamped
      after last_tick or a boundary was crossed. */
  lemma CancelledRowTriggers(cfg: Config, env: Env, lastTick: int, g: GuestConfig, o: Override, cancelled: int)
    requires ValidRows(env.rows) && o in env.rows && o.target == g.name
    requires forall r :: r in env.rows && r.target == g.name && r != o ==> Newer(o, r)
    requires o.createdAt <= lastTick <= env.now && (o.until.Some? ==> lastTick < o.until.value)
    requires o.cancelledAt == Some(cancelled) && cancelled <= env.now
    requires forall r :: r in env.rows && r.target == g.name && r != o ==>
      !ActiveAt(r, lastTick) && !ActiveAt(r, env.now)
    ensures Trig(cfg, env, Some(lastTick), g) <==>
      lastTick < cancelled || Crossed(cfg, g.schedule, lastTick, env.now)
  {
    NothingCrossed(cfg.zone, lastTick, env.now);
    hide CrossingsOf, EffectiveOverrideOf;
    var crossed := CrossingsOf(cfg.zone, ScheduleOf(cfg, g.schedule), lastTick, env.now);
    assert |crossed| > 0 <==> crossed != [];
    assert crossed != [] <==> Crossed(cfg, g.schedule, lastTick, env.now);
    NoActiveRow(env.rows, g.name, env.now);
    if lastTick < cancelled {
      NewestRowDecides(env.rows, lastTick, o);
    } else {
      NoActiveRow(env.rows, g.name, lastTick);
    }
  }

  lemma NoActiveRow(rows: seq<Override>, target: string, t: int)
    requires ValidRows(rows) && forall r :: r in rows && r.target == target ==> !ActiveAt(r, t)
    ensures EffectiveOverride(rows, target, t) == None
  {
    var e := EffectiveOverride(rows, target, t);
    if e.Some? { EffectiveExact(rows, target, t, ANY, e.value); }
  }

  lemma NewestRowDecides(rows: seq<Override>, t: int, o: Override)
    requires ValidRows(rows) && o in rows && ActiveAt(o, t)
    requires forall r :: r in rows && r.target == o.target && r != o ==> Newer(o, r)
    ensures EffectiveOverride(rows, o.target, t) == Some(o)
  {
    assert o.action == On || o.action == Off || o.action == Pause || o.action == IgnoreWeather;
    forall r ensures r !in NewerMatches(rows, o.target, t, ANY, o) { assert !(Newer(r, o) && Newer(o, r)); }
    assert NewerMatches(rows, o.target, t, ANY, o) == {};
    EffectiveExact(rows, o.target, t, ANY, o);
  }

  /** An override created in the very second of last_tick, but after that pass read the
      table, is never acted on: the next pass finds the same row at both ends. */
  lemma SameSecondOverrideIsMissed(cfg: Config, env: Env, g: GuestConfig, stamp: int)
    requires g.schedule !in cfg.schedules && stamp <= env.now
    requires env.rows == [Override(1, g.name, On, None, "user:a", stamp, None)]
    ensures Target(cfg, [], g, stamp).on == false
    ensures Target(cfg, env.rows, g, env.now) == Wish(true, true)
    ensures !Trig(cfg, env, Some(stamp), g)
    ensures forall lastTick :: lastTick < stamp ==> Trig(cfg, env, Some(lastTick), g)
  {
    forall t ensures EffectiveOverride(env.rows, g.name, t) == if stamp <= t then Some(env.rows[0]) else None {
      SingleRow(env.rows[0], t);
    }
    NoScheduleIsOff(cfg.zone, stamp);
    assert EffectiveOverride([], g.name, stamp) == None;
  }

  /** An "on" cancelled in the very second of last_tick, after that pass read the table and
      saw it active, stays in force for the engine: both ends of the next window name no row. */
  lemma SameSecondCancelIsMissed(cfg: Config, env: Env, g: GuestConfig, stamp: int)
    requires g.schedule !in cfg.schedules && 0 < stamp <= env.now
    requires env.rows == [Override(1, g.name, On, None, "user:a", 0, Some(stamp))]
    ensures Target(cfg, [env.rows[0].(cancelledAt := None)], g, stamp) == Wish(true, true)
    ensures Target(cfg, env.rows, g, env.now) == Wish(false, true)
    ensures !Trig(cfg, env, Some(stamp), g)
    ensures forall lastTick :: 0 <= lastTick < stamp ==> Trig(cfg, env, Some(lastTick), g)
  {
    SingleRow(env.rows[0].(cancelledAt := None), stamp);
    NoActiveRow(env.rows, g.name, env.now);
    NoScheduleIsOff(cfg.zone, env.now);
    hide Trig, EffectiveOverride, IsOn;
    forall lastTick | 0 <= lastTick <= stamp ensures Trig(cfg, env, Some(lastTick), g) <==> lastTick < stamp {
      SameSecondCancelTriggers(cfg, env, lastTick, g, stamp);
    }
  }

  lemma SameSecondCancelTriggers(cfg: Config, env: Env, lastTick: int, g: GuestConfig, stamp: int)
    requires g.schedule !in cfg.schedules && 0 <= lastTick <= stamp <= env.now
    requires env.rows == [Override(1, g.name, On, None, "user:a", 0, Some(stamp))]
    ensures Trig(cfg, env, Some(lastTick), g) <==> lastTick < stamp
  {
    NothingCrossed(cfg.zone, lastTick, env.now);
    hide Trig, CrossingsOf;
    CancelledRowTriggers(cfg, env, lastTick, g, env.rows[0], stamp);
  }

  lemma NothingCrossed(z: Zone, from: int, upto: int)
    ensures CrossingsOf(z, [], from, upto) == []
  {
  }

  lemma SingleRow(o: Override, t: int)
    requires o.until.None? && o.cancelledAt.None? && o.action == On
    ensures EffectiveOverride([o], o.target, t) == if o.createdAt <= t then Some(o) else None
  {
    var p := Matching(o.target, t, ANY);
    assert [o][..0] == [];
    assert Where(p, [o]) == if p(o) then [o] else [];
    assert NewestFirst([o]) == [o] && Limited([o]) == [o];
    assert FirstSuch(IsActive(t), [o]) == if IsActive(t)(o) then Some(o) else FirstSuch(IsActive(t), [o][1..]);
    assert FirstSuch(IsActive(t), []) == None;
  }
}
