/** When and how the node is told to shut down: active tasks, the Danger grace, and the
    guests that must have stopped first. */
module EngineShutdown {
  import opened Prelude
  import opened Schedules
  import opened Overrides
  import opened Guests
  import opened Ordering
  import opened EngineSpec
  import opened EngineFrames
  import opened EngineSafety
  import Weather

  // ----- which ticks tell the node to shut down -----

  ghost predicate HostTold(w: World, w': World) {
    exists i :: |w.calls| <= i < |w'.calls| && w'.calls[i].HostCall?
  }

  /** The calls made by stopping these guests with every task finishing OK. */
  function Stopped(names: seq<string>): seq<Call> {
    if names == [] then [] else [GuestCall(names[0], false, TaskOK)] + Stopped(names[1..])
  }

  /** The guests that must stop, in the order given. */
  function StopList(cfg: Config, listing: map<string, bool>, names: seq<string>): seq<string> {
    if names == [] then []
    else if MustStop(cfg, listing, names[0]) then [names[0]] + StopList(cfg, listing, names[1..])
    else StopList(cfg, listing, names[1..])
  }

  /** Stopping succeeds only when every stop did; the calls are then exactly these. */
  lemma {:induction false} StopAllExact(cfg: Config, env: Env, w: World, names: seq<string>, listing: map<string, bool>)
    requires !cfg.dryRun
    ensures var r := StopAll(cfg, env, w, names, listing);
      r.Ok? ==> r.w.calls == w.calls + Stopped(StopList(cfg, listing, names))
    decreases |names|
  {
    hide MustStop;
    if names != [] {
      if MustStop(cfg, listing, names[0]) {
        var r := Execute(cfg, env, w, Planned(names[0], false, "schedule"));
        if r.Ok? { StopAllExact(cfg, env, r.w, names[1..], listing); }
      } else {
        StopAllExact(cfg, env, w, names[1..], listing);
      }
    }
  }

  lemma StopNodeExact(cfg: Config, env: Env, w: World)
    ensures var r := StopNode(cfg, env, w);
      if cfg.dryRun then r.w.calls == w.calls
      else exists o :: r.w.calls == w.calls + [HostCall(o)] && (o == TaskOK <== r.Ok?)
  {
    if !cfg.dryRun { var (o, w1) := RunTask(env, w); }
  }

  /** A told node means every running managed guest was stopped first, in order. */
  ghost predicate StoppedThenTold(cfg: Config, listing: map<string, bool>, w: World, w': World) {
    exists o :: w'.calls == w.calls + Stopped(StopList(cfg, listing, Reverse(cfg.order))) + [HostCall(o)]
  }

  lemma ProceedTold(cfg: Config, env: Env, w: World, listing: map<string, bool>)
    ensures var w' := ProceedShutdown(cfg, env, w, listing).w;
      HostTold(w, w') ==> !cfg.dryRun && StoppedThenTold(cfg, listing, w, w')
  {
    hide StopAll, StopNode, Reverse, StopList, Stopped;
    var w2 := DeleteState(env, DeleteState(env, w, PostponedNotified).w, DangerGrace).w;
    var r := StopAll(cfg, env, w2, Reverse(cfg.order), listing);
    StopAllFrame(cfg, env, w2, Reverse(cfg.order), listing);
    if !cfg.dryRun { StopAllExact(cfg, env, w2, Reverse(cfg.order), listing); }
    StopNodeExact(cfg, env, r.w);
  }

  lemma ActTold(cfg: Config, env: Env, w: World, wish: Wish, bypass: bool, listing: map<string, bool>)
    ensures var r := ActOnHost(cfg, env, w, wish, bypass, listing);
      HostTold(w, r.w) ==>
        && !cfg.dryRun && wish == Wish(false, true) && env.reachable
        && (r.Ok? ==> r.value)
        && StoppedThenTold(cfg, listing, w, r.w)
        && TaskCheck(cfg, env, ClearWakeState(env, w).w, bypass).Ok?
        && TaskCheck(cfg, env, ClearWakeState(env, w).w, bypass).value
  {
    hide ClearWakeState, CompleteWake, TaskCheck, ProceedShutdown, PursueWake, StoppedThenTold;
    var c := ClearWakeState(env, w);
    ClearWakeFrame(env, w);
    var t := TaskCheck(cfg, env, c.w, bypass);
    TaskCheckFrame(cfg, env, c.w, bypass);
    ProceedTold(cfg, env, t.w, listing);
    SameCallsTold(cfg, listing, t.w, w, ProceedShutdown(cfg, env, t.w, listing).w);
    var d := CompleteWake(env, w);
    CompleteWakeFrame(env, w);
    ClearWakeFrame(env, d.w);
    PursueWakeFrame(cfg, env, w);
  }

  lemma SameCallsTold(cfg: Config, listing: map<string, bool>, a: World, b: World, w': World)
    requires a.calls == b.calls
    ensures StoppedThenTold(cfg, listing, a, w') ==> StoppedThenTold(cfg, listing, b, w')
    ensures HostTold(a, w') == HostTold(b, w')
  {
  }

  /** Why a tick told the node to shut down: the states in which it decided to. */
  lemma TickTold(cfg: Config, env: Env, w: World) returns (st: Stages)
    ensures RanAs(cfg, env, w, st, Tick(cfg, env, w))
    ensures HostTold(w, Tick(cfg, env, w).w) ==>
      && st.Acting? && !cfg.dryRun && env.reachable && st.wish == Wish(false, true)
      && !(Tick(cfg, env, w).Ok? && Tick(cfg, env, w).value)
      && StoppedThenTold(cfg, Listing(env), w, Tick(cfg, env, w).w)
      && var t := TaskCheck(cfg, env, ClearWakeState(env, st.w3).w, st.safety.bypass); t.Ok? && t.value
  {
    hide Tick, Prologue, WeatherSafety, DecideHost, ActOnHost;
    hide GuestPass, Listing, TaskCheck, ClearWakeState, StoppedThenTold;
    st := TickStages(cfg, env, w);
    var r := Tick(cfg, env, w);
    match st {
      case NoIntro =>
      case NoSafety(intro, w1) => WeatherSafetyFrame(cfg, env, w1);
      case NoWish(intro, w1, safety, w2) => WeatherSafetyFrame(cfg, env, w1);
      case Acting(intro, w1, safety, w2, wish, w3) =>
        WeatherSafetyFrame(cfg, env, w1);
        var a := ActOnHost(cfg, env, w3, wish, safety.bypass, Listing(env));
        ActTold(cfg, env, w3, wish, safety.bypass, Listing(env));
        SameCallsTold(cfg, Listing(env), w3, w, a.w);
        if r != Fail(a.w) && r != Ok(false, a.w) {
          GuestPassFrame(cfg, env, a.w, intro.lastTick, Listing(env));
          ActReadyNotTold(cfg, env, w3, wish, safety.bypass, Listing(env));
        }
    }
  }

  lemma ActReadyNotTold(cfg: Config, env: Env, w: World, wish: Wish, bypass: bool, listing: map<string, bool>)
    ensures var a := ActOnHost(cfg, env, w, wish, bypass, listing);
      a.Ok? && env.reachable && !a.value ==> a.w.calls == w.calls
  {
    hide ClearWakeState, CompleteWake, ShutdownHost, PursueWake;
    CompleteWakeFrame(env, w);
    ClearWakeFrame(env, CompleteWake(env, w).w);
  }

  // ----- forced by the weather -----

  /** What schedules and overrides alone would have done with the host this tick. */
  function PlainWish(cfg: Config, env: Env, w: World): Wish {
    var p := Prologue(cfg, env, w.(ops := 0));
    WishFor(EffectiveOverrideOf(env.rows, HOST, env.now, POWER),
            IsOn(cfg.zone, ScheduleOf(cfg, cfg.hostSchedule), env.now) || (p.Ok? && p.value.wantsOn))
  }

  /** A host told to shut down against schedules and overrides was forced by an
      un-ignored Warning or Danger. */
  lemma ForcedByWeather(cfg: Config, env: Env, w: World)
    requires HostTold(w, NextTick(cfg, env, w).w) && PlainWish(cfg, env, w) != Wish(false, true)
    ensures var e := EvalOf(cfg, env, w); e.Some? && e.value.force && (SawWarning(e.value) || e.value.danger)
  {
    hide Tick, Prologue, WeatherSafety, ActOnHost, GuestPass, Listing, TaskCheck, ClearWakeState, StoppedThenTold;
    var st := TickTold(cfg, env, w.(ops := 0));
    SafetyEffect(cfg, env, st.w1);
  }

  /** A forced shutdown at Warning level waited out the countdown: some un-ignored Warning
      at least that long ago, and every evaluation since saw Warning or higher (or failed
      to store that it did not). */
  lemma ForcedShutdownWaitedCountdown(cfg: Config, w: World, envs: seq<Env>, env: Env)
    requires WarningSince !in w.kv
    requires HostTold(After(cfg, w, envs), NextTick(cfg, env, After(cfg, w, envs)).w)
    requires PlainWish(cfg, env, After(cfg, w, envs)) != Wish(false, true) && env.level == Weather.Warning
    ensures var h := Evals(cfg, w, envs + [env]);
      exists i :: 0 <= i < |h| && SawWarning(h[i]) && NotCalmed(h, i + 1, |h|) && h[i].now + cfg.countdown <= env.now
  {
    ForcedByWeather(cfg, env, After(cfg, w, envs));
    hide NextTick, HostTold, PlainWish, NotCalmed;
    ForcedMeansCountdown(cfg, w, envs, env);
  }

  // ----- guests first -----

  /** A live tick tells the node to shut down only after every running, managed,
      non-always-on guest has stopped with its task OK, in reverse dependency order, and
      as its last call; if any of them fails the node is not told. */
  lemma GuestsStopBeforeHost(cfg: Config, env: Env, w: World)
    requires HostTold(w, NextTick(cfg, env, w).w)
    ensures !cfg.dryRun
    ensures exists o :: NextTick(cfg, env, w).w.calls
              == w.calls + Stopped(StopList(cfg, Listing(env), Reverse(cfg.order))) + [HostCall(o)]
  {
    hide Tick, Listing, StopList, Stopped, Reverse, RanAs;
    var st := TickTold(cfg, env, w.(ops := 0));
  }

  lemma {:induction false} StopListMembers(cfg: Config, listing: map<string, bool>, names: seq<string>, n: string)
    ensures n in StopList(cfg, listing, names) <==> n in names && MustStop(cfg, listing, n)
    decreases |names|
  {
    hide MustStop;
    if names != [] {
      StopListMembers(cfg, listing, names[1..], n);
      assert n in names <==> n == names[0] || n in names[1..];
    }
  }

  ghost predicate Precedes(xs: seq<string>, a: string, b: string) {
    exists i, j :: 0 <= i < j < |xs| && xs[i] == a && xs[j] == b
  }

  lemma {:induction false} StopListOrder(cfg: Config, listing: map<string, bool>, names: seq<string>, a: string,
                                         b: string)
    requires Precedes(names, a, b) && MustStop(cfg, listing, a) && MustStop(cfg, listing, b)
    ensures Precedes(StopList(cfg, listing, names), a, b)
    decreases |names|
  {
    hide MustStop;
    var i, j :| 0 <= i < j < |names| && names[i] == a && names[j] == b;
    var rest := StopList(cfg, listing, names[1..]);
    var xs := StopList(cfg, listing, names);
    if i == 0 {
      assert names[1..][j - 1] == b;
      StopListMembers(cfg, listing, names[1..], b);
      var k :| 0 <= k < |rest| && rest[k] == b;
      assert xs[0] == a && xs[k + 1] == b;
    } else {
      assert names[1..][i - 1] == a && names[1..][j - 1] == b;
      StopListOrder(cfg, listing, names[1..], a, b);
      var k, l :| 0 <= k < l < |rest| && rest[k] == a && rest[l] == b;
      if xs != rest { assert xs[k + 1] == a && xs[l + 1] == b; }
    }
  }

  lemma {:induction false} ReverseAt(xs: seq<string>)
    ensures |Reverse(xs)| == |xs| && forall i :: 0 <= i < |xs| ==> Reverse(xs)[i] == xs[|xs| - 1 - i]
  {
    if xs != [] { ReverseAt(xs[..|xs| - 1]); }
  }

  lemma {:induction false} ReverseMembers(xs: seq<string>, n: string)
    ensures n in Reverse(xs) <==> n in xs
  {
    if xs != [] {
      ReverseMembers(xs[..|xs| - 1], n);
      assert xs == xs[..|xs| - 1] + [xs[|xs| - 1]];
    }
  }

  /** With the order TopologicalOrder computed, a dependent stops before each running
      managed guest it depends on. */
  lemma DependentsStopFirst(cfg: Config, listing: map<string, bool>, dependent: string, dep: string)
    requires Topological(ByName(cfg.guests), cfg.order) && dependent in cfg.order
    requires Edge(ByName(cfg.guests), dependent, dep)
    requires MustStop(cfg, listing, dependent) && MustStop(cfg, listing, dep)
    ensures Precedes(StopList(cfg, listing, Reverse(cfg.order)), dependent, dep)
  {
    hide MustStop, StopList, ByName, Edge, Reverse;
    var order, n := cfg.order, |cfg.order|;
    var i :| 0 <= i < n && order[i] == dependent;
    assert dep in order[..i];
    var j :| 0 <= j < i && order[j] == dep;
    hide Topological;
    ReverseAt(order);
    assert Reverse(order)[n - 1 - i] == dependent && Reverse(order)[n - 1 - j] == dep;
    StopListOrder(cfg, listing, Reverse(order), dependent, dep);
  }

  /** Unique guest names, all of them in the dependency order New computed. */
  ghost predicate GoodConfig(cfg: Config) {
    && UniqueNames(cfg.guests)
    && (forall i :: 0 <= i < |cfg.guests| ==> cfg.guests[i].name in cfg.order)
  }

  /** A managed guest the node reports as running. */
  ghost predicate Running(cfg: Config, env: Env, i: int) {
    && 0 <= i < |cfg.guests| && !cfg.guests[i].alwaysOn
    && cfg.guests[i].name in Listing(env) && Listing(env)[cfg.guests[i].name]
  }

  lemma {:induction false} GuestFound(guests: seq<GuestConfig>, i: nat)
    requires i < |guests| && forall a, b :: 0 <= a < b < |guests| ==> guests[a].name != guests[b].name
    ensures GuestByName(guests, guests[i].name) == Some(guests[i])
  {
    if i > 0 {
      assert guests[1..][i - 1] == guests[i];
      GuestFound(guests[1..], i - 1);
    }
  }

  lemma {:induction false} StopListDistinct(cfg: Config, listing: map<string, bool>, names: seq<string>)
    requires Distinct(names)
    ensures Distinct(StopList(cfg, listing, names))
    decreases |names|
  {
    hide MustStop;
    if names != [] {
      StopListDistinct(cfg, listing, names[1..]);
      StopListMembers(cfg, listing, names[1..], names[0]);
    }
  }

  lemma {:induction false} StoppedAt(names: seq<string>)
    ensures |Stopped(names)| == |names|
    ensures forall k :: 0 <= k < |names| ==> Stopped(names)[k] == GuestCall(names[k], false, TaskOK)
  {
    if names != [] { StoppedAt(names[1..]); }
  }

  /** After the calls made before this tick, and before the last of them all, call k
      stopped guest n and its task ended OK. */
  ghost predicate StopAt(before: seq<Call>, calls: seq<Call>, n: string, k: int) {
    |before| <= k < |calls| - 1 && calls[k] == GuestCall(n, false, TaskOK)
  }

  /** Each managed guest reported as running was stopped, */
  ghost predicate AllStopped(cfg: Config, env: Env, before: seq<Call>, calls: seq<Call>) {
    forall i :: Running(cfg, env, i) ==> exists k :: StopAt(before, calls, cfg.guests[i].name, k)
  }

  ghost predicate StopsRunning(cfg: Config, env: Env, c: Call) {
    exists i :: Running(cfg, env, i) && c == GuestCall(cfg.guests[i].name, false, TaskOK)
  }

  /** nothing else was called, */
  ghost predicate OnlyStopped(cfg: Config, env: Env, before: seq<Call>, calls: seq<Call>) {
    forall k :: |before| <= k < |calls| - 1 ==> StopsRunning(cfg, env, calls[k])
  }

  /** each stop came once, and before those of the guests it depends on, */
  ghost predicate StoppedInOrder(guests: seq<GuestConfig>, before: seq<Call>, calls: seq<Call>) {
    && (forall n, k, l :: StopAt(before, calls, n, k) && StopAt(before, calls, n, l) ==> k == l)
    && (forall i, j, k, l :: DependsOn(guests, i, j) ==>
          StopAt(before, calls, guests[i].name, k) && StopAt(before, calls, guests[j].name, l) ==> k < l)
  }

  /** and the node was told last. */
  ghost predicate HostLast(before: seq<Call>, calls: seq<Call>) {
    before < calls && calls[|calls| - 1].HostCall?
  }

  lemma MustStopIsRunning(cfg: Config, env: Env, i: nat)
    requires GoodConfig(cfg) && i < |cfg.guests|
    ensures MustStop(cfg, Listing(env), cfg.guests[i].name) <==> Running(cfg, env, i)
  {
    GuestFound(cfg.guests, i);
  }

  lemma StopListIsRunning(cfg: Config, env: Env, n: string) returns (i: int)
    requires GoodConfig(cfg) && n in ByName(cfg.guests) && MustStop(cfg, Listing(env), n)
    ensures Running(cfg, env, i) && cfg.guests[i].name == n
  {
    i :| 0 <= i < |cfg.guests| && cfg.guests[i].name == n;
    MustStopIsRunning(cfg, env, i);
  }

  /** The calls of a shutdown: a successful stop for each of these guests, then the node. */
  ghost predicate StopsThenHost(before: seq<Call>, calls: seq<Call>, names: seq<string>) {
    && before < calls && |calls| == |before| + |names| + 1 && calls[|calls| - 1].HostCall?
    && forall k :: |before| <= k < |calls| - 1 ==> calls[k] == GuestCall(names[k - |before|], false, TaskOK)
  }

  lemma ToldAfterStops(cfg: Config, env: Env, w: World)
    requires HostTold(w, NextTick(cfg, env, w).w)
    ensures StopsThenHost(w.calls, NextTick(cfg, env, w).w.calls, StopList(cfg, Listing(env), Reverse(cfg.order)))
  {
    GuestsStopBeforeHost(cfg, env, w);
    StoppedAt(StopList(cfg, Listing(env), Reverse(cfg.order)));
    hide NextTick, StopList, Stopped, Reverse, Listing, HostTold;
  }

  lemma StopPositions(cfg: Config, env: Env, k: nat, l: nat)
    requires GoodConfig(cfg) && Topological(ByName(cfg.guests), cfg.order)
    requires var names := StopList(cfg, Listing(env), Reverse(cfg.order)); k < |names| && l < |names|
    ensures var names := StopList(cfg, Listing(env), Reverse(cfg.order));
      && (names[k] == names[l] ==> k == l)
      && (Edge(ByName(cfg.guests), names[k], names[l]) ==> k < l)
  {
    var names := StopList(cfg, Listing(env), Reverse(cfg.order));
    ReverseDistinct(cfg);
    StopListDistinct(cfg, Listing(env), Reverse(cfg.order));
    if Edge(ByName(cfg.guests), names[k], names[l]) {
      StopListMembers(cfg, Listing(env), Reverse(cfg.order), names[k]);
      StopListMembers(cfg, Listing(env), Reverse(cfg.order), names[l]);
      hide StopList, MustStop, Reverse, Listing, ByName, GoodConfig;
      ReverseMembers(cfg.order, names[k]);
      DependentsStopFirst(cfg, Listing(env), names[k], names[l]);
    }
  }

  lemma RunningIsCalled(cfg: Config, env: Env, before: seq<Call>, calls: seq<Call>, i: int)
    requires GoodConfig(cfg) && Running(cfg, env, i)
    requires StopsThenHost(before, calls, StopList(cfg, Listing(env), Reverse(cfg.order)))
    ensures exists k :: StopAt(before, calls, cfg.guests[i].name, k)
  {
    RunningIsStopped(cfg, env, i);
    hide StopList, Reverse, Listing, Running, GoodConfig;
    var names := StopList(cfg, Listing(env), Reverse(cfg.order));
    var k :| 0 <= k < |names| && names[k] == cfg.guests[i].name;
    assert StopAt(before, calls, cfg.guests[i].name, |before| + k);
  }

  lemma CalledIsRunning(cfg: Config, env: Env, before: seq<Call>, calls: seq<Call>)
    requires GoodConfig(cfg) && Topological(ByName(cfg.guests), cfg.order)
    requires StopsThenHost(before, calls, StopList(cfg, Listing(env), Reverse(cfg.order)))
    ensures OnlyStopped(cfg, env, before, calls)
  {
    hide StopList, Reverse, Listing, ByName, GoodConfig, Topological;
    var names := StopList(cfg, Listing(env), Reverse(cfg.order));
    forall k | |before| <= k < |calls| - 1 ensures StopsRunning(cfg, env, calls[k]) {
      var i := StoppedIsRunning(cfg, env, names[k - |before|]);
    }
  }

  lemma CallsInOrder(cfg: Config, env: Env, before: seq<Call>, calls: seq<Call>)
    requires GoodConfig(cfg) && Topological(ByName(cfg.guests), cfg.order)
    requires StopsThenHost(before, calls, StopList(cfg, Listing(env), Reverse(cfg.order)))
    ensures StoppedInOrder(cfg.guests, before, calls)
  {
    hide StopList, Reverse, Listing, ByName, Topological, Edge;
    forall n, k, l | StopAt(before, calls, n, k) && StopAt(before, calls, n, l) ensures k == l {
      StopPositions(cfg, env, k - |before|, l - |before|);
    }
    forall i, j, k, l | DependsOn(cfg.guests, i, j)
      && StopAt(before, calls, cfg.guests[i].name, k) && StopAt(before, calls, cfg.guests[j].name, l)
      ensures k < l
    {
      EdgeIsDependency(cfg.guests, i, j);
      StopPositions(cfg, env, k - |before|, l - |before|);
    }
  }

  /** With unique names and the order New computed, a tick that tells the node has stopped
      the running managed guests first, dependents before what they depend on. */
  lemma HostGoesLast(cfg: Config, env: Env, w: World)
    requires GoodConfig(cfg) && Topological(ByName(cfg.guests), cfg.order)
    requires HostTold(w, NextTick(cfg, env, w).w)
    ensures var before, calls := w.calls, NextTick(cfg, env, w).w.calls;
      && AllStopped(cfg, env, before, calls) && OnlyStopped(cfg, env, before, calls)
      && StoppedInOrder(cfg.guests, before, calls) && HostLast(before, calls)
  {
    ToldAfterStops(cfg, env, w);
    hide NextTick, StopList, Reverse, Listing, ByName, GoodConfig, Topological, HostTold, StopAt;
    hide OnlyStopped, StoppedInOrder;
    var calls := NextTick(cfg, env, w).w.calls;
    forall i | Running(cfg, env, i) ensures exists k :: StopAt(w.calls, calls, cfg.guests[i].name, k) {
      RunningIsCalled(cfg, env, w.calls, calls, i);
    }
    CalledIsRunning(cfg, env, w.calls, calls);
    CallsInOrder(cfg, env, w.calls, calls);
  }

  lemma ReverseDistinct(cfg: Config)
    requires Topological(ByName(cfg.guests), cfg.order)
    ensures Distinct(Reverse(cfg.order))
  {
    ReverseAt(cfg.order);
  }

  lemma RunningIsStopped(cfg: Config, env: Env, i: int)
    requires GoodConfig(cfg) && Running(cfg, env, i)
    ensures cfg.guests[i].name in StopList(cfg, Listing(env), Reverse(cfg.order))
  {
    var n := cfg.guests[i].name;
    MustStopIsRunning(cfg, env, i);
    ReverseMembers(cfg.order, n);
    StopListMembers(cfg, Listing(env), Reverse(cfg.order), n);
  }

  lemma StoppedIsRunning(cfg: Config, env: Env, n: string) returns (i: int)
    requires GoodConfig(cfg) && Topological(ByName(cfg.guests), cfg.order)
    requires n in StopList(cfg, Listing(env), Reverse(cfg.order))
    ensures Running(cfg, env, i) && cfg.guests[i].name == n
  {
    StopListMembers(cfg, Listing(env), Reverse(cfg.order), n);
    ReverseMembers(cfg.order, n);
    i := StopListIsRunning(cfg, env, n);
  }

  // ----- active tasks and the Danger grace -----

  predicate Busy(env: Env) { env.tasks.Some? && env.tasks.value > 0 }

  predicate DangerOn(cfg: Config, env: Env) {
    cfg.enforce && env.level == Weather.Danger && !Ignored(env)
  }

  function GraceSince(kv: KV, now: int): int { if DangerGrace in kv then kv[DangerGrace] else now }

  lemma TaskCheckPassed(cfg: Config, env: Env, w: World, bypass: bool)
    ensures var t := TaskCheck(cfg, env, w, bypass);
      t.Ok? && t.value && Busy(env) ==> bypass && env.now - GraceSince(w.kv, env.now) >= cfg.grace
  {
    hide StateSince;
    StateSinceEffect(env, w, DangerGrace);
  }

  lemma BypassMeansDanger(cfg: Config, env: Env, w: World)
    ensures var r := WeatherSafety(cfg, env, w);
      r.Ok? && r.value.bypass ==> DangerOn(cfg, env) && SameKey(w.kv, r.w.kv, DangerGrace)
  {
    hide ClearWeatherState, StateSince;
    if !BelowWarning(cfg, env) {
      var q := Query(env, w, HOST, env.now, {IgnoreWeather});
      StateSinceEffect(env, q.w, WarningSince);
    }
  }

  /** The node is never told to shut down with active tasks, unless an un-ignored Danger
      is enforced and the grace since the stored mark is over. */
  lemma BusyHostNeedsGrace(cfg: Config, env: Env, w: World)
    requires HostTold(w, NextTick(cfg, env, w).w) && Busy(env)
    ensures DangerOn(cfg, env) && env.now - GraceSince(w.kv, env.now) >= cfg.grace
  {
    hide Tick, Prologue, WeatherSafety, DecideHost, ActOnHost;
    hide GuestPass, Listing, TaskCheck, ClearWakeState, StoppedThenTold;
    var st := TickTold(cfg, env, w.(ops := 0));
    ClearWakeFrame(env, st.w3);
    var c := ClearWakeState(env, st.w3).w;
    assert SameKey(st.w3.kv, c.kv, DangerGrace) by { assert DangerGrace !in WAKE_KEYS; }
    TaskCheckPassed(cfg, env, c, st.safety.bypass);
    BypassMeansDanger(cfg, env, st.w1);
  }

  /** A Danger postponement: the only thing that starts the grace period. */
  predicate Postpones(cfg: Config, env: Env) { DangerOn(cfg, env) && env.reachable && Busy(env) }

  /** The mark survives unchanged, or is gone, or was just set by a postponement. */
  ghost predicate GraceStep(cfg: Config, env: Env, w: World, w': World) {
    DangerGrace in w'.kv ==>
      SameKey(w.kv, w'.kv, DangerGrace)
      || (DangerGrace !in w.kv && w'.kv[DangerGrace] == env.now && Postpones(cfg, env))
  }

  lemma TaskCheckGrace(cfg: Config, env: Env, w: World, bypass: bool)
    ensures var w' := TaskCheck(cfg, env, w, bypass).w;
      DangerGrace in w'.kv ==>
        SameKey(w.kv, w'.kv, DangerGrace)
        || (DangerGrace !in w.kv && w'.kv[DangerGrace] == env.now && bypass && Busy(env))
  {
    hide StateSince;
    StateSinceEffect(env, w, DangerGrace);
  }

  lemma ProceedGrace(cfg: Config, env: Env, w: World, listing: map<string, bool>)
    ensures var w' := ProceedShutdown(cfg, env, w, listing).w;
      DangerGrace in w'.kv ==> SameKey(w.kv, w'.kv, DangerGrace)
  {
    hide StopAll, StopNode, Reverse;
    var w2 := DeleteState(env, DeleteState(env, w, PostponedNotified).w, DangerGrace).w;
    var r := StopAll(cfg, env, w2, Reverse(cfg.order), listing);
    StopAllFrame(cfg, env, w2, Reverse(cfg.order), listing);
    StopNodeFrame(cfg, env, r.w);
  }

  lemma ActGrace(cfg: Config, env: Env, w: World, wish: Wish, bypass: bool, listing: map<string, bool>)
    ensures var w' := ActOnHost(cfg, env, w, wish, bypass, listing).w;
      DangerGrace in w'.kv ==>
        SameKey(w.kv, w'.kv, DangerGrace)
        || (DangerGrace !in w.kv && w'.kv[DangerGrace] == env.now && bypass && Busy(env) && env.reachable)
  {
    hide ClearWakeState, CompleteWake, TaskCheck, ProceedShutdown, PursueWake;
    assert DangerGrace !in WAKE_KEYS;
    var c := ClearWakeState(env, w);
    ClearWakeFrame(env, w);
    assert SameKey(w.kv, c.w.kv, DangerGrace);
    var t := TaskCheck(cfg, env, c.w, bypass);
    TaskCheckGrace(cfg, env, c.w, bypass);
    ProceedGrace(cfg, env, t.w, listing);
    var d := CompleteWake(env, w);
    CompleteWakeFrame(env, w);
    assert SameKey(w.kv, d.w.kv, DangerGrace);
    ClearWakeFrame(env, d.w);
    assert SameKey(d.w.kv, ClearWakeState(env, d.w).w.kv, DangerGrace);
    PursueWakeFrame(cfg, env, w);
    assert SameKey(w.kv, PursueWake(cfg, env, w).w.kv, DangerGrace);
  }

  lemma SafetyGrace(cfg: Config, env: Env, w: World)
    ensures var r := WeatherSafety(cfg, env, w);
      DangerGrace in r.w.kv ==> SameKey(w.kv, r.w.kv, DangerGrace)
  {
    hide ClearWeatherState, StateSince;
    ClearWeatherEffect(env, w);
    if !BelowWarning(cfg, env) {
      var q := Query(env, w, HOST, env.now, {IgnoreWeather});
      StateSinceEffect(env, q.w, WarningSince);
    }
  }

  lemma TickGrace(cfg: Config, env: Env, w: World)
    ensures GraceStep(cfg, env, w, NextTick(cfg, env, w).w)
  {
    hide Tick, Prologue, WeatherSafety, DecideHost, ActOnHost, GuestPass, Listing;
    var idle := w.(ops := 0);
    var st := TickStages(cfg, env, idle);
    match st {
      case NoIntro =>
      case NoSafety(intro, w1) => SafetyGrace(cfg, env, w1);
      case NoWish(intro, w1, safety, w2) => SafetyGrace(cfg, env, w1);
      case Acting(intro, w1, safety, w2, wish, w3) =>
        SafetyGrace(cfg, env, w1);
        BypassMeansDanger(cfg, env, w1);
        var a := ActOnHost(cfg, env, w3, wish, safety.bypass, Listing(env));
        ActGrace(cfg, env, w3, wish, safety.bypass, Listing(env));
        GuestPassFrame(cfg, env, a.w, intro.lastTick, Listing(env));
    }
  }

  /** Tick j postponed a shutdown for Danger and started the grace period, which no later
      tick of the run has ended. */
  ghost predicate GraceStartedAt(cfg: Config, w: World, envs: seq<Env>, j: int) {
    && 0 <= j < |envs| && Postpones(cfg, envs[j])
    && DangerGrace !in After(cfg, w, envs[..j]).kv
    && forall k :: j < k <= |envs| ==>
         DangerGrace in After(cfg, w, envs[..k]).kv && After(cfg, w, envs[..k]).kv[DangerGrace] == envs[j].now
  }

  lemma {:induction false} GraceHasAStart(cfg: Config, w: World, envs: seq<Env>)
    requires DangerGrace !in w.kv && DangerGrace in After(cfg, w, envs).kv
    ensures exists j :: GraceStartedAt(cfg, w, envs, j) && envs[j].now == After(cfg, w, envs).kv[DangerGrace]
  {
    hide NextTick, Postpones;
    var n := |envs| - 1;
    var rest, env := envs[..n], envs[n];
    assert envs[..|envs|] == envs;
    assert forall k :: 0 <= k <= n ==> rest[..k] == envs[..k];
    TickGrace(cfg, env, After(cfg, w, rest));
    if DangerGrace in After(cfg, w, rest).kv {
      GraceHasAStart(cfg, w, rest);
      var j :| GraceStartedAt(cfg, w, rest, j) && rest[j].now == After(cfg, w, rest).kv[DangerGrace];
      assert GraceStartedAt(cfg, w, envs, j);
    } else {
      assert GraceStartedAt(cfg, w, envs, n);
    }
  }

  /** So with a positive grace, a busy node is told to shut down only when an earlier tick
      postponed for Danger at least the grace ago and the mark has stood ever since. */
  lemma BusyHostWaitedGrace(cfg: Config, w: World, envs: seq<Env>, env: Env)
    requires cfg.grace > 0 && DangerGrace !in w.kv && Busy(env)
    requires HostTold(After(cfg, w, envs), NextTick(cfg, env, After(cfg, w, envs)).w)
    ensures DangerOn(cfg, env)
    ensures exists j :: GraceStartedAt(cfg, w, envs, j) && env.now - envs[j].now >= cfg.grace
  {
    BusyHostNeedsGrace(cfg, env, After(cfg, w, envs));
    hide NextTick, GraceStartedAt, HostTold;
    GraceHasAStart(cfg, w, envs);
  }

  // ----- Danger with nothing failing -----

  lemma {:induction false} AnyWantsOnOK(cfg: Config, env: Env, w: World, i: nat)
    requires AllOK(env) && i <= |cfg.guests|
    ensures AnyWantsOn(cfg, env, w, i).Ok?
    decreases |cfg.guests| - i
  {
    hide GuestWish;
    if i < |cfg.guests| {
      AnyWantsOnOK(cfg, env, w, i + 1);
      AnyWantsOnOK(cfg, env, w.(ops := w.ops + 1), i + 1);
    }
  }

  lemma PrologueOK(cfg: Config, env: Env, w: World)
    requires AllOK(env) && (env.reachable ==> env.listing.Some?)
    ensures Prologue(cfg, env, w).Ok?
  {
    AnyWantsOnOK(cfg, env, w.(ops := w.ops + 1), 0);
  }

  lemma {:induction false} StopAllOK(cfg: Config, env: Env, w: World, names: seq<string>, listing: map<string, bool>)
    requires AllOK(env)
    ensures StopAll(cfg, env, w, names, listing).Ok?
    decreases |names|
  {
    hide MustStop;
    if names != [] {
      var r := Execute(cfg, env, w, Planned(names[0], false, "schedule"));
      StopAllOK(cfg, env, r.w, names[1..], listing);
      StopAllOK(cfg, env, w, names[1..], listing);
    }
  }

  lemma ProceedOK(cfg: Config, env: Env, w: World, listing: map<string, bool>)
    requires AllOK(env) && !cfg.dryRun
    ensures var r := ProceedShutdown(cfg, env, w, listing);
      r.Ok? && HostTold(w, r.w) && r.w.calls[|r.w.calls| - 1] == HostCall(TaskOK)
  {
    hide StopAll, StopNode, Reverse;
    var w2 := DeleteState(env, DeleteState(env, w, PostponedNotified).w, DangerGrace).w;
    var r := StopAll(cfg, env, w2, Reverse(cfg.order), listing);
    StopAllOK(cfg, env, w2, Reverse(cfg.order), listing);
    StopAllFrame(cfg, env, w2, Reverse(cfg.order), listing);
    StopNodeOK(cfg, env, r.w);
    assert StopNode(cfg, env, r.w).w.calls[|r.w.calls|].HostCall?;
  }

  lemma StopNodeOK(cfg: Config, env: Env, w: World)
    requires AllOK(env) && !cfg.dryRun
    ensures StopNode(cfg, env, w).Ok? && StopNode(cfg, env, w).w.calls == w.calls + [HostCall(TaskOK)]
  {
  }

  lemma DangerSafety(cfg: Config, env: Env, w: World)
    requires AllOK(env) && DangerOn(cfg, env)
    ensures WeatherSafety(cfg, env, w) == Ok(Safety(true, true), w.(ops := w.ops + 1))
  {
  }

  lemma TaskCheckOK(cfg: Config, env: Env, w: World)
    requires AllOK(env) && env.tasks.Some?
    ensures var t, since := TaskCheck(cfg, env, w, true), GraceSince(w.kv, env.now);
      && t.Ok? && t.w.calls == w.calls
      && (t.value <==> !Busy(env) || env.now - since >= cfg.grace)
      && (Busy(env) ==> DangerGrace in t.w.kv && t.w.kv[DangerGrace] == since)
  {
    hide StateSince;
    StateSinceEffect(env, w, DangerGrace);
    StateSinceOK(env, w, DangerGrace);
  }

  lemma StateSinceOK(env: Env, w: World, k: Key)
    requires AllOK(env)
    ensures StateSince(env, w, k).Ok?
  {
  }

  lemma ClearWakeOK(env: Env, w: World)
    requires AllOK(env)
    ensures ClearWakeState(env, w).Ok?
  {
  }

  /** A tick that sees an un-ignored Danger on a reachable host, with nothing failing. */
  ghost predicate DangerTick(cfg: Config, env: Env) {
    AllOK(env) && env.trusted && env.reachable && env.listing.Some? && env.tasks.Some? && DangerOn(cfg, env)
  }

  /** What an un-ignored Danger does to a reachable host. */
  ghost predicate DangerOutcome(cfg: Config, env: Env, w: World, w': World) {
    var since := GraceSince(w.kv, env.now);
    if Busy(env) && env.now - since < cfg.grace
    then w'.calls == w.calls && DangerGrace in w'.kv && w'.kv[DangerGrace] == since
    else HostTold(w, w') && w'.calls[|w'.calls| - 1] == HostCall(TaskOK)
  }

  lemma DangerActs(cfg: Config, env: Env, w: World, listing: map<string, bool>)
    requires AllOK(env) && env.reachable && env.tasks.Some? && !cfg.dryRun
    ensures var a := ActOnHost(cfg, env, w, Wish(false, true), true, listing);
      a.Ok? && a.value && DangerOutcome(cfg, env, w, a.w)
  {
    hide TaskCheck, ClearWakeState, ProceedShutdown, CompleteWake, PursueWake;
    var c := ClearWakeState(env, w);
    ClearWakeFrame(env, w);
    ClearWakeOK(env, w);
    assert SameKey(w.kv, c.w.kv, DangerGrace) by { assert DangerGrace !in WAKE_KEYS; }
    var t := TaskCheck(cfg, env, c.w, true);
    TaskCheckOK(cfg, env, c.w);
    ProceedOK(cfg, env, t.w, listing);
    SameCallsTold(cfg, listing, t.w, w, ProceedShutdown(cfg, env, t.w, listing).w);
  }

  /** It shuts the host down unless tasks are active and the grace is not over, in which
      case it only keeps, or starts, the grace period. */
  lemma DangerDecides(cfg: Config, env: Env, w: World)
    requires DangerTick(cfg, env) && !cfg.dryRun
    ensures DangerOutcome(cfg, env, w, NextTick(cfg, env, w).w)
  {
    var idle := w.(ops := 0);
    PrologueFrame(cfg, env, idle);
    PrologueOK(cfg, env, idle);
    hide Prologue, WeatherSafety, ActOnHost, GuestPass, Ignored, HostTold;
    var p := Prologue(cfg, env, idle);
    DangerSafety(cfg, env, p.w);
    var w2 := p.w.(ops := p.w.ops + 1);
    DangerActs(cfg, env, w2, Listing(env));
    var a := ActOnHost(cfg, env, w2, Wish(false, true), true, Listing(env));
    assert NextTick(cfg, env, w).w == a.w;
    SameCallsTold(cfg, Listing(env), w2, w, a.w);
  }
}
