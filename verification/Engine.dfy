/** One tick of the scheduler as a function of the stored state and of everything the
    tick observes: internal/engine/engine.go, guests.go and host.go. */
module EngineSpec {
  import opened Prelude
  import opened Schedules
  import opened Overrides
  import opened Guests
  import Weather

  /** The keys of the state table; times are unix seconds, flags are present or not. */
  datatype Key = LastTick | WakeAttempts | WakeLastSent | WakeFailed | LastWakeOK | PostponedNotified
               | WarningSince | DangerSince | DangerGrace

  type KV = map<Key, int>

  datatype EventKind = GuestStart | GuestShutdown | HostWake | HostWakeFailed | HostWakeOK | HostShutdown

  datatype Event = Event(at: int, kind: EventKind, target: string, actor: string, dryRun: bool)

  /** How an asynchronous Proxmox action ended: refused, its task failed or timed out,
      or its task finished OK. */
  datatype Outcome = Rejected | TaskFailed | TaskOK

  /** The mutating calls a tick makes, in order, with how they ended. */
  datatype Call = GuestCall(name: string, start: bool, outcome: Outcome)
                | HostCall(outcome: Outcome)
                | WakeCall(sent: bool)

  /** The store and the call log; ops counts the fallible operations of this tick. */
  datatype World = World(kv: KV, events: seq<Event>, calls: seq<Call>, ops: nat)

  /** What a tick meets: the clock, the weather level, whether the node answers, the
      guests listed and whether each runs (None: the listing failed), the override rows,
      the number of active tasks (None: the query failed), and which of the tick's
      fallible operations succeed. A crash is every operation from some point failing. */
  datatype Env = Env(now: int, trusted: bool, level: Weather.Level, reachable: bool,
                     listing: Option<map<string, bool>>, rows: seq<Override>, tasks: Option<nat>,
                     ok: nat -> bool)

  datatype Config = Config(dryRun: bool, zone: Zone, guests: seq<GuestConfig>, schedules: map<string, Schedule>,
                           hostSchedule: string, order: seq<string>, wolRetries: int, wakeTimeout: int,
                           enforce: bool, countdown: int, grace: int)

  const HOST := "host"

  /** A result that keeps what a failed step had already done. */
  datatype Res<+T> = Ok(value: T, w: World) | Fail(w: World) {
    predicate IsFailure() { Fail? }
    function PropagateFailure<U>(): Res<U>
      requires Fail?
    {
      Fail(w)
    }
    function Extract(): (T, World)
      requires Ok?
    {
      (value, w)
    }
  }

  // ----- fallible operations -----

  function Op(env: Env, w: World): Res<()> {
    if env.ok(w.ops) then Ok((), w.(ops := w.ops + 1)) else Fail(w.(ops := w.ops + 1))
  }

  function GetState(env: Env, w: World, k: Key): Res<Option<int>> {
    var (_, w1) :- Op(env, w);
    Ok(if k in w1.kv then Some(w1.kv[k]) else None, w1)
  }

  function SetState(env: Env, w: World, k: Key, v: int): Res<()> {
    var (_, w1) :- Op(env, w);
    Ok((), w1.(kv := w1.kv[k := v]))
  }

  function DeleteState(env: Env, w: World, k: Key): Res<()> {
    var (_, w1) :- Op(env, w);
    Ok((), w1.(kv := w1.kv - {k}))
  }

  function RecordEvent(env: Env, w: World, e: Event): Res<()> {
    var (_, w1) :- Op(env, w);
    Ok((), w1.(events := w1.events + [e]))
  }

  function Query(env: Env, w: World, target: string, t: int, actions: set<Action>): Res<Option<Override>> {
    var (_, w1) :- Op(env, w);
    Ok(EffectiveOverrideOf(env.rows, target, t, actions), w1)
  }

  // ----- host.go -----

  function ClearWeatherState(env: Env, w: World): Res<()> {
    var (_, w1) :- DeleteState(env, w, WarningSince);
    var (_, w2) :- DeleteState(env, w1, DangerSince);
    DeleteState(env, w2, DangerGrace)
  }

  function ClearWakeState(env: Env, w: World): Res<()> {
    var (_, w1) :- DeleteState(env, w, WakeAttempts);
    var (_, w2) :- DeleteState(env, w1, WakeLastSent);
    DeleteState(env, w2, WakeFailed)
  }

  function StateSince(env: Env, w: World, k: Key): Res<int> {
    var (v, w1) :- GetState(env, w, k);
    if v.Some? then Ok(v.value, w1)
    else
      var (_, w2) :- SetState(env, w1, k, env.now);
      Ok(env.now, w2)
  }

  predicate BelowWarning(cfg: Config, env: Env) {
    !cfg.enforce || Weather.Severity(env.level) < Weather.Severity(Weather.Warning)
  }

  /** What the weather demands: whether to force the host off, and whether active tasks
      may be cut short once the grace period is over. */
  datatype Safety = Safety(forceOff: bool, bypass: bool)

  function WeatherSafety(cfg: Config, env: Env, w: World): Res<Safety> {
    if BelowWarning(cfg, env) then
      var (_, w1) :- ClearWeatherState(env, w);
      Ok(Safety(false, false), w1)
    else
      var (ov, w1) :- Query(env, w, HOST, env.now, {IgnoreWeather});
      if ov.Some? then Ok(Safety(false, false), w1)
      else if env.level == Weather.Danger then Ok(Safety(true, true), w1)
      else
        var (since, w2) :- StateSince(env, w1, WarningSince);
        Ok(Safety(env.now - since >= cfg.countdown, false), w2)
  }

  /** Desired state, and whether to act on it at all (a pause means: leave it alone). */
  datatype Wish = Wish(on: bool, act: bool)

  function WishFor(ov: Option<Override>, base: bool): Wish {
    match ov
    case None => Wish(base, true)
    case Some(o) =>
      match o.action
      case On => Wish(true, true)
      case Off => Wish(false, true)
      case Pause => Wish(false, false)
      case IgnoreWeather => Wish(base, true)
  }

  function HostWish(env: Env, w: World, base: bool): Res<Wish> {
    var (ov, w1) :- Query(env, w, HOST, env.now, POWER);
    Ok(WishFor(ov, base), w1)
  }

  function SendWoL(cfg: Config, env: Env, w: World): Res<()> {
    if cfg.dryRun then Ok((), w)
    else
      var sent := env.ok(w.ops);
      var w1 := w.(ops := w.ops + 1, calls := w.calls + [WakeCall(sent)]);
      if sent then Ok((), w1) else Fail(w1)
  }

  function FirstWake(cfg: Config, env: Env, w: World): Res<()> {
    var (_, w1) :- SendWoL(cfg, env, w);
    NoteFirstWake(cfg, env, w1)
  }

  function NoteFirstWake(cfg: Config, env: Env, w: World): Res<()> {
    var (_, w1) :- SetState(env, w, WakeAttempts, 1);
    var (_, w2) :- SetState(env, w1, WakeLastSent, env.now);
    RecordEvent(env, w2, Event(env.now, HostWake, HOST, "schedule", cfg.dryRun))
  }

  function RetryWake(cfg: Config, env: Env, w: World): Res<()> {
    var (stored, w1) :- GetState(env, w, WakeAttempts);
    var attempts := if stored.Some? then stored.value else 0;
    if attempts >= cfg.wolRetries then
      GiveUp(cfg, env, w1)
    else
      var (_, w2) :- SendWoL(cfg, env, w1);
      NoteRetry(env, w2, attempts + 1)
  }

  function GiveUp(cfg: Config, env: Env, w: World): Res<()> {
    var (_, w1) :- SetState(env, w, WakeFailed, 1);
    RecordEvent(env, w1, Event(env.now, HostWakeFailed, HOST, "schedule", cfg.dryRun))
  }

  function NoteRetry(env: Env, w: World, attempts: int): Res<()> {
    var (_, w1) :- SetState(env, w, WakeAttempts, attempts);
    SetState(env, w1, WakeLastSent, env.now)
  }

  function PursueWake(cfg: Config, env: Env, w: World): Res<()> {
    var (failed, w1) :- GetState(env, w, WakeFailed);
    if failed.Some? then Ok((), w1)
    else
      var (lastSent, w2) :- GetState(env, w1, WakeLastSent);
      if lastSent.None? then FirstWake(cfg, env, w2)
      else if env.now - lastSent.value < cfg.wakeTimeout then Ok((), w2)
      else RetryWake(cfg, env, w2)
  }

  function CompleteWake(env: Env, w: World): Res<()> {
    var (waking, w1) :- GetState(env, w, WakeLastSent);
    if waking.None? then Ok((), w1)
    else
      var (_, w2) :- SetState(env, w1, LastWakeOK, env.now);
      RecordEvent(env, w2, Event(env.now, HostWakeOK, HOST, "schedule", false))
  }

  /** Whether the shutdown may go on in spite of active tasks. */
  function TaskCheck(cfg: Config, env: Env, w: World, bypass: bool): Res<bool> {
    if env.tasks.None? then Fail(w)
    else if env.tasks.value == 0 then Ok(true, w)
    else
      var (past, w2) :- GracePassed(cfg, env, w, bypass);
      if past then Ok(true, w2)
      else
        var (notified, w3) :- GetState(env, w2, PostponedNotified);
        if notified.Some? then Ok(false, w3)
        else
          var (_, w4) :- SetState(env, w3, PostponedNotified, 1);
          Ok(false, w4)
  }

  function GracePassed(cfg: Config, env: Env, w: World, bypass: bool): Res<bool> {
    if !bypass then Ok(false, w)
    else
      var (since, w1) :- StateSince(env, w, DangerGrace);
      Ok(env.now - since >= cfg.grace, w1)
  }

  function GuestByName(guests: seq<GuestConfig>, name: string): Option<GuestConfig> {
    if guests == [] then None
    else if guests[0].name == name then Some(guests[0])
    else GuestByName(guests[1..], name)
  }

  /** A managed guest that is listed as running must stop before the host does. */
  predicate MustStop(cfg: Config, listing: map<string, bool>, name: string) {
    var g := GuestByName(cfg.guests, name);
    g.Some? && !g.value.alwaysOn && name in listing && listing[name]
  }

  function StopAll(cfg: Config, env: Env, w: World, names: seq<string>, listing: map<string, bool>): Res<()>
    decreases |names|
  {
    if names == [] then Ok((), w)
    else if !MustStop(cfg, listing, names[0]) then StopAll(cfg, env, w, names[1..], listing)
    else
      var (_, w1) :- Execute(cfg, env, w, Planned(names[0], false, "schedule"));
      StopAll(cfg, env, w1, names[1..], listing)
  }

  function StopNode(cfg: Config, env: Env, w: World): Res<()> {
    if cfg.dryRun then
      RecordEvent(env, w, Event(env.now, HostShutdown, HOST, "schedule", true))
    else
      var (outcome, w1) := RunTask(env, w);
      var w2 := w1.(calls := w1.calls + [HostCall(outcome)]);
      if outcome != TaskOK then Fail(w2)
      else RecordEvent(env, w2, Event(env.now, HostShutdown, HOST, "schedule", false))
  }

  function Reverse(xs: seq<string>): seq<string> {
    if xs == [] then [] else [xs[|xs| - 1]] + Reverse(xs[..|xs| - 1])
  }

  function ProceedShutdown(cfg: Config, env: Env, w: World, listing: map<string, bool>): Res<()> {
    var (_, w1) :- DeleteState(env, w, PostponedNotified);
    var (_, w2) :- DeleteState(env, w1, DangerGrace);
    var (_, w3) :- StopAll(cfg, env, w2, Reverse(cfg.order), listing);
    StopNode(cfg, env, w3)
  }

  function ShutdownHost(cfg: Config, env: Env, w: World, listing: map<string, bool>, bypass: bool): Res<()> {
    var (proceed, w1) :- TaskCheck(cfg, env, w, bypass);
    if !proceed then Ok((), w1) else ProceedShutdown(cfg, env, w1, listing)
  }

  function ScheduleOf(cfg: Config, name: string): Schedule {
    if name in cfg.schedules then cfg.schedules[name] else []
  }

  function DecideHost(cfg: Config, env: Env, w: World, wantsOn: bool, safety: Safety): Res<Wish> {
    if safety.forceOff then Ok(Wish(false, true), w)
    else HostWish(env, w, IsOn(cfg.zone, ScheduleOf(cfg, cfg.hostSchedule), env.now) || wantsOn)
  }

  /** Acts on the wish for the host; true means guests must be left alone this tick. */
  function ActOnHost(cfg: Config, env: Env, w: World, wish: Wish, bypass: bool, listing: map<string, bool>): Res<bool> {
    if !wish.act then Ok(!env.reachable, w)
    else if !wish.on then
      var (_, w1) :- ClearWakeState(env, w);
      if !env.reachable then Ok(true, w1)
      else
        var (_, w2) :- ShutdownHost(cfg, env, w1, listing, bypass);
        Ok(true, w2)
    else if env.reachable then
      var (_, w1) :- CompleteWake(env, w);
      var (_, w2) :- ClearWakeState(env, w1);
      Ok(false, w2)
    else
      var (_, w1) :- PursueWake(cfg, env, w);
      Ok(true, w1)
  }

  function ReconcileHost(cfg: Config, env: Env, w: World, wantsOn: bool, listing: map<string, bool>): Res<bool> {
    var (safety, w1) :- WeatherSafety(cfg, env, w);
    var (wish, w2) :- DecideHost(cfg, env, w1, wantsOn, safety);
    ActOnHost(cfg, env, w2, wish, safety.bypass, listing)
  }

  // ----- guests.go -----

  datatype Planned = Planned(name: string, start: bool, actor: string)

  /** A Proxmox action and the wait for its task: two fallible operations. */
  function RunTask(env: Env, w: World): (Outcome, World) {
    if !env.ok(w.ops) then (Rejected, w.(ops := w.ops + 1))
    else (if env.ok(w.ops + 1) then TaskOK else TaskFailed, w.(ops := w.ops + 2))
  }

  function EventOf(env: Env, a: Planned, dryRun: bool): Event {
    Event(env.now, if a.start then GuestStart else GuestShutdown, a.name, a.actor, dryRun)
  }

  function Execute(cfg: Config, env: Env, w: World, a: Planned): Res<()> {
    if cfg.dryRun then RecordEvent(env, w, EventOf(env, a, true))
    else
      var (outcome, w1) := RunTask(env, w);
      var w2 := w1.(calls := w1.calls + [GuestCall(a.name, a.start, outcome)]);
      if outcome != TaskOK then Fail(w2) else RecordEvent(env, w2, EventOf(env, a, false))
  }

  function GuestWish(cfg: Config, g: GuestConfig, ov: Option<Override>, now: int): Wish {
    WishFor(ov, IsOn(cfg.zone, ScheduleOf(cfg, g.schedule), now))
  }

  function AnyWantsOn(cfg: Config, env: Env, w: World, i: nat): Res<bool>
    requires i <= |cfg.guests|
    decreases |cfg.guests| - i
  {
    if i == |cfg.guests| then Ok(false, w)
    else if cfg.guests[i].alwaysOn then AnyWantsOn(cfg, env, w, i + 1)
    else
      var g := cfg.guests[i];
      var (ov, w1) :- Query(env, w, g.name, env.now, ANY);
      var wish := GuestWish(cfg, g, ov, env.now);
      if wish.act && wish.on then Ok(true, w1) else AnyWantsOn(cfg, env, w1, i + 1)
  }

  predicate SameOverride(a: Option<Override>, b: Option<Override>) {
    if a.None? || b.None? then a.None? && b.None? else a.value.id == b.value.id
  }

  /** A boundary was crossed, or the effective override is another one, since lastTick;
      without a last tick everything is new. */
  function Triggered(cfg: Config, env: Env, w: World, lastTick: Option<int>, g: GuestConfig,
                     ovNow: Option<Override>): Res<bool>
  {
    if lastTick.None? then Ok(true, w)
    else if |CrossingsOf(cfg.zone, ScheduleOf(cfg, g.schedule), lastTick.value, env.now)| > 0 then Ok(true, w)
    else
      var (ovThen, w1) :- Query(env, w, g.name, lastTick.value, ANY);
      Ok(!SameOverride(ovThen, ovNow), w1)
  }

  function PlanGuest(cfg: Config, env: Env, w: World, lastTick: Option<int>, listing: map<string, bool>,
                     g: GuestConfig): Res<Option<Planned>>
  {
    if g.alwaysOn then Ok(None, w)
    else
      var (ov, w1) :- Query(env, w, g.name, env.now, ANY);
      var (trigger, w2) :- Triggered(cfg, env, w1, lastTick, g, ov);
      var wish := GuestWish(cfg, g, ov, env.now);
      if !trigger || !wish.act || g.name !in listing || listing[g.name] == wish.on then Ok(None, w2)
      else Ok(Some(Planned(g.name, wish.on, if ov.Some? then ov.value.createdBy else "schedule")), w2)
  }

  datatype Plans = Plans(starts: map<string, Planned>, stops: map<string, Planned>)

  function AddPlan(p: Plans, a: Option<Planned>): Plans {
    if a.None? then p
    else if a.value.start then p.(starts := p.starts[a.value.name := a.value])
    else p.(stops := p.stops[a.value.name := a.value])
  }

  function PlanFrom(cfg: Config, env: Env, w: World, lastTick: Option<int>, listing: map<string, bool>, i: nat,
                    p: Plans): Res<Plans>
    requires i <= |cfg.guests|
    decreases |cfg.guests| - i
  {
    if i == |cfg.guests| then Ok(p, w)
    else
      var (a, w1) :- PlanGuest(cfg, env, w, lastTick, listing, cfg.guests[i]);
      PlanFrom(cfg, env, w1, lastTick, listing, i + 1, AddPlan(p, a))
  }

  /** Failed actions are counted and the rest still run. */
  function ExecuteAll(cfg: Config, env: Env, w: World, names: seq<string>, actions: map<string, Planned>,
                      failed: nat): (World, nat)
    decreases |names|
  {
    if names == [] then (w, failed)
    else if names[0] !in actions then ExecuteAll(cfg, env, w, names[1..], actions, failed)
    else
      var r := Execute(cfg, env, w, actions[names[0]]);
      ExecuteAll(cfg, env, r.w, names[1..], actions, if r.Fail? then failed + 1 else failed)
  }

  // ----- engine.go -----

  /** The part of a tick that reconciles guests; true when it completed. */
  function GuestPass(cfg: Config, env: Env, w: World, lastTick: Option<int>, listing: map<string, bool>): Res<bool> {
    var (p, w1) :- PlanFrom(cfg, env, w, lastTick, listing, 0, Plans(map[], map[]));
    var (w2, failedStops) := ExecuteAll(cfg, env, w1, Reverse(cfg.order), p.stops, 0);
    var (w3, failed) := ExecuteAll(cfg, env, w2, cfg.order, p.starts, failedStops);
    if failed > 0 then Fail(w3)
    else
      var (_, w4) :- SetState(env, w3, LastTick, env.now);
      Ok(true, w4)
  }

  function Listing(env: Env): map<string, bool> {
    if env.reachable && env.listing.Some? then env.listing.value else map[]
  }

  /** What a tick knows when it turns to the host. */
  datatype Intro = Intro(lastTick: Option<int>, wantsOn: bool)

  function Prologue(cfg: Config, env: Env, w: World): Res<Intro> {
    var (lastTick, w1) :- GetState(env, w, LastTick);
    if env.reachable && env.listing.None? then Fail(w1)
    else
      var (wantsOn, w2) :- AnyWantsOn(cfg, env, w1, 0);
      Ok(Intro(lastTick, wantsOn), w2)
  }

  /** One tick. Ok(true) is a completed guest pass, the only thing that moves last_tick. */
  function Tick(cfg: Config, env: Env, w: World): Res<bool> {
    if !env.trusted then Ok(false, w)
    else
      var (intro, w1) :- Prologue(cfg, env, w);
      var (notReady, w2) :- ReconcileHost(cfg, env, w1, intro.wantsOn, Listing(env));
      if !env.reachable || notReady then Ok(false, w2)
      else GuestPass(cfg, env, w2, intro.lastTick, Listing(env))
  }

  /** A tick counts its operations from zero. */
  function NextTick(cfg: Config, env: Env, w: World): Res<bool> { Tick(cfg, env, w.(ops := 0)) }

  /** The world after a run of ticks, whatever each of them meets. */
  function After(cfg: Config, w: World, envs: seq<Env>): World {
    if envs == [] then w
    else NextTick(cfg, envs[|envs| - 1], After(cfg, w, envs[..|envs| - 1])).w
  }
}
