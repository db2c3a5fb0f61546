/** Wake-on-LAN episodes over runs of ticks: how many packets are sent, how far apart,
    and how often giving up and succeeding are recorded. */
module EngineWake {
  import opened Prelude
  import opened EngineSpec
  import opened EngineFrames

  /** Packets really sent. */
  function Sends(calls: seq<Call>): nat {
    if calls == [] then 0
    else Sends(calls[..|calls| - 1]) + if calls[|calls| - 1] == WakeCall(true) then 1 else 0
  }

  /** The events of one kind. */
  function Recorded(events: seq<Event>, kind: EventKind): nat {
    if events == [] then 0
    else Recorded(events[..|events| - 1], kind) + if events[|events| - 1].kind == kind then 1 else 0
  }

  function Failures(events: seq<Event>): nat { Recorded(events, HostWakeFailed) }

  function Successes(events: seq<Event>): nat { Recorded(events, HostWakeOK) }

  lemma SendsAppend(calls: seq<Call>, c: Call)
    ensures Sends(calls + [c]) == Sends(calls) + if c == WakeCall(true) then 1 else 0
  {
    assert (calls + [c])[..|calls|] == calls;
  }

  lemma RecordedAppend(events: seq<Event>, e: Event, kind: EventKind)
    ensures Recorded(events + [e], kind) == Recorded(events, kind) + if e.kind == kind then 1 else 0
  {
    assert (events + [e])[..|events|] == events;
  }

  lemma {:induction false} SendsOfExtension(calls: seq<Call>, more: seq<Call>)
    requires calls <= more && forall i :: |calls| <= i < |more| ==> !more[i].WakeCall?
    ensures Sends(more) == Sends(calls)
    decreases |more|
  {
    if |more| > |calls| {
      SendsOfExtension(calls, more[..|more| - 1]);
    } else {
      assert more == calls;
    }
  }

  lemma {:induction false} RecordedOfExtension(events: seq<Event>, more: seq<Event>, kind: EventKind)
    requires events <= more && forall i :: |events| <= i < |more| ==> more[i].kind != kind
    ensures Recorded(more, kind) == Recorded(events, kind)
    decreases |more|
  {
    if |more| > |events| {
      RecordedOfExtension(events, more[..|more| - 1], kind);
    } else {
      assert more == events;
    }
  }

  ghost predicate SameCounts(w: World, w': World) {
    Sends(w.calls) == Sends(w'.calls) && Failures(w.events) == Failures(w'.events)
  }

  /** Nothing sent, nothing given up, and wake keys at most removed. */
  ghost predicate WakeQuiet(w: World, w': World) {
    SameCounts(w, w') && forall k :: k in WAKE_KEYS && k in w'.kv ==> k in w.kv && w.kv[k] == w'.kv[k]
  }

  ghost predicate SameWakeKeys(w: World, w': World) { forall k :: k in WAKE_KEYS ==> SameKey(w.kv, w'.kv, k) }

  lemma OtherKeysAreQuiet(w: World, w': World, keys: set<Key>)
    requires Touches(w, w', keys) && SameLogs(w, w') && keys !! WAKE_KEYS
    ensures WakeQuiet(w, w') && SameWakeKeys(w, w')
  {
    forall k | k in WAKE_KEYS ensures SameKey(w.kv, w'.kv, k) { assert k !in keys; }
  }

  // ----- a tick either pursues a wake or is quiet -----

  lemma GuestWorkIsQuiet(w: World, w': World)
    requires AddsOnlyGuestCalls(w, w') && AddsOnlyGuestEvents(w, w')
    ensures SameCounts(w, w')
  {
    SendsOfExtension(w.calls, w'.calls);
    RecordedOfExtension(w.events, w'.events, HostWakeFailed);
  }

  lemma StopNodeQuiet(cfg: Config, env: Env, w: World)
    ensures WakeQuiet(w, StopNode(cfg, env, w).w)
  {
    var w' := StopNode(cfg, env, w).w;
    StopNodeFrame(cfg, env, w);
    if w'.calls != w.calls {
      var o :| w'.calls == w.calls + [HostCall(o)];
      SendsAppend(w.calls, HostCall(o));
    }
    if w'.events != w.events {
      var e :| w'.events == w.events + [e] && e.kind == HostShutdown;
      RecordedAppend(w.events, e, HostWakeFailed);
    }
  }

  lemma ProceedQuiet(cfg: Config, env: Env, w: World, listing: map<string, bool>)
    ensures WakeQuiet(w, ProceedShutdown(cfg, env, w, listing).w)
  {
    hide StopAll, StopNode, Reverse;
    var w1 := DeleteState(env, w, PostponedNotified).w;
    var w2 := DeleteState(env, w1, DangerGrace).w;
    var r := StopAll(cfg, env, w2, Reverse(cfg.order), listing);
    StopAllFrame(cfg, env, w2, Reverse(cfg.order), listing);
    GuestWorkIsQuiet(w2, r.w);
    StopNodeQuiet(cfg, env, r.w);
  }

  lemma ShutdownQuiet(cfg: Config, env: Env, w: World, listing: map<string, bool>, bypass: bool)
    ensures WakeQuiet(w, ShutdownHost(cfg, env, w, listing, bypass).w)
  {
    hide TaskCheck, ProceedShutdown;
    var r := TaskCheck(cfg, env, w, bypass);
    TaskCheckFrame(cfg, env, w, bypass);
    OtherKeysAreQuiet(w, r.w, {DangerGrace, PostponedNotified});
    ProceedQuiet(cfg, env, r.w, listing);
  }

  lemma CompleteQuiet(env: Env, w: World)
    ensures WakeQuiet(w, CompleteWake(env, w).w)
  {
    CompleteWakeFrame(env, w);
    RecordedAppend(w.events, Event(env.now, HostWakeOK, HOST, "schedule", false), HostWakeFailed);
  }

  lemma ActQuiet(cfg: Config, env: Env, w: World, wish: Wish, bypass: bool, listing: map<string, bool>)
    requires !(wish.act && wish.on && !env.reachable)
    ensures WakeQuiet(w, ActOnHost(cfg, env, w, wish, bypass, listing).w)
  {
    hide ClearWakeState, CompleteWake, ShutdownHost, PursueWake;
    var c := ClearWakeState(env, w);
    ClearWakeFrame(env, w);
    ShutdownQuiet(cfg, env, c.w, listing, bypass);
    var d := CompleteWake(env, w);
    CompleteQuiet(env, w);
    ClearWakeFrame(env, d.w);
  }

  /** When a tick pursues a wake, everything before that left the wake state alone. */
  lemma TickWake(cfg: Config, env: Env, w: World) returns (pursued: bool, w1: World)
    ensures var r := Tick(cfg, env, w);
      && (pursued ==> !env.reachable)
      && (!pursued ==> WakeQuiet(w, r.w))
      && (pursued ==> SameCounts(w, w1) && SameWakeKeys(w, w1)
                      && r.w == PursueWake(cfg, env, w1).w && (r.Fail? <==> PursueWake(cfg, env, w1).Fail?))
  {
    hide Prologue, WeatherSafety, DecideHost, GuestPass, PursueWake;
    hide ClearWakeState, CompleteWake, ShutdownHost, Listing;
    pursued, w1 := false, w;
    if env.trusted {
      var p := Prologue(cfg, env, w);
      PrologueFrame(cfg, env, w);
      if p.Ok? {
        var s := WeatherSafety(cfg, env, p.w);
        WeatherSafetyFrame(cfg, env, p.w);
        OtherKeysAreQuiet(p.w, s.w, WEATHER_KEYS);
        if s.Ok? {
          var d := DecideHost(cfg, env, s.w, p.value.wantsOn, s.value);
          DecideHostFrame(cfg, env, s.w, p.value.wantsOn, s.value);
          if d.Ok? {
            pursued := d.value.act && d.value.on && !env.reachable;
            w1 := d.w;
            if !pursued {
              hide ActOnHost;
              var h := ActOnHost(cfg, env, d.w, d.value, s.value.bypass, Listing(env));
              ActQuiet(cfg, env, d.w, d.value, s.value.bypass, Listing(env));
              GuestPassQuiet(cfg, env, h.w, p.value.lastTick, Listing(env));
            }
          }
        }
      }
    }
  }

  lemma GuestPassQuiet(cfg: Config, env: Env, w: World, lastTick: Option<int>, listing: map<string, bool>)
    ensures WakeQuiet(w, GuestPass(cfg, env, w, lastTick, listing).w)
  {
    hide GuestPass;
    var r := GuestPass(cfg, env, w, lastTick, listing);
    GuestPassFrame(cfg, env, w, lastTick, listing);
    GuestWorkIsQuiet(w, r.w);
  }

  // ----- one pursuit -----

  function Attempts(kv: KV): int { if WakeAttempts in kv then kv[WakeAttempts] else 0 }

  function Max(a: int, b: int): int { if a < b then b else a }

  /** sends and cuts count since the episode began. */
  ghost predicate Bounded(cfg: Config, kv: KV, sends: int, cuts: int) {
    && 0 <= Attempts(kv) <= Max(1, cfg.wolRetries)
    && sends <= Attempts(kv) + cuts
    && (WakeLastSent !in kv ==> sends <= cuts)
  }

  /** A packet went out and the tick failed before storing both its number and its time.
      (The time is written last; a retry that stored it cannot fail any more.) */
  function CutShort<T>(w: World, r: Res<T>): nat {
    if r.Fail? && Sends(r.w.calls) > Sends(w.calls) && (WakeLastSent in w.kv || WakeLastSent !in r.w.kv) then 1 else 0
  }

  lemma SendWoLEffect(cfg: Config, env: Env, w: World)
    ensures var r := SendWoL(cfg, env, w);
      && r.w.kv == w.kv && r.w.events == w.events
      && Sends(r.w.calls) == Sends(w.calls) + (if r.Ok? && !cfg.dryRun then 1 else 0)
  {
    SendsAppend(w.calls, WakeCall(env.ok(w.ops)));
  }

  lemma NoteFirstWakeEffect(cfg: Config, env: Env, w: World)
    requires WakeLastSent !in w.kv
    ensures var r := NoteFirstWake(cfg, env, w);
      && r.w.calls == w.calls && Failures(r.w.events) == Failures(w.events)
      && SameKey(w.kv, r.w.kv, WakeFailed)
      && (r.Ok? ==> Attempts(r.w.kv) == 1 && WakeLastSent in r.w.kv && r.w.kv[WakeLastSent] == env.now)
      && (r.Fail? ==> Attempts(r.w.kv) == Attempts(w.kv) || Attempts(r.w.kv) == 1)
      && (r.Fail? && WakeLastSent in r.w.kv ==> Attempts(r.w.kv) == 1 && r.w.kv[WakeLastSent] == env.now)
  {
    RecordedAppend(w.events, Event(env.now, HostWake, HOST, "schedule", cfg.dryRun), HostWakeFailed);
  }

  lemma FirstWakeEffect(cfg: Config, env: Env, w: World)
    requires WakeLastSent !in w.kv
    ensures var r, sent := FirstWake(cfg, env, w), Sends(FirstWake(cfg, env, w).w.calls) - Sends(w.calls);
      && 0 <= sent <= 1 && Failures(r.w.events) == Failures(w.events)
      && SameKey(w.kv, r.w.kv, WakeFailed)
      && (r.Ok? ==> sent == if cfg.dryRun then 0 else 1)
      && (r.Ok? ==> Attempts(r.w.kv) == 1 && WakeLastSent in r.w.kv && r.w.kv[WakeLastSent] == env.now)
      && (r.Fail? ==> Attempts(r.w.kv) == Attempts(w.kv) || Attempts(r.w.kv) == 1)
      && (r.Fail? && sent == 0 ==> cfg.dryRun || SameWakeKeys(w, r.w))
      && (cfg.dryRun ==> sent == 0)
      && (r.Fail? && WakeLastSent in r.w.kv ==> Attempts(r.w.kv) == 1 && r.w.kv[WakeLastSent] == env.now)
  {
    hide SendWoL, NoteFirstWake;
    var s := SendWoL(cfg, env, w);
    SendWoLEffect(cfg, env, w);
    NoteFirstWakeEffect(cfg, env, s.w);
  }

  lemma NoteRetryEffect(env: Env, w: World, attempts: int)
    ensures var r := NoteRetry(env, w, attempts);
      && SameCounts(w, r.w) && SameKey(w.kv, r.w.kv, WakeFailed)
      && (r.Ok? ==> Attempts(r.w.kv) == attempts && WakeLastSent in r.w.kv && r.w.kv[WakeLastSent] == env.now)
      && (r.Fail? ==> Attempts(r.w.kv) == Attempts(w.kv) || Attempts(r.w.kv) == attempts)
      && (WakeLastSent in w.kv ==> WakeLastSent in r.w.kv)
  {
  }

  lemma GiveUpEffect(cfg: Config, env: Env, w: World)
    ensures var r := GiveUp(cfg, env, w);
      && Sends(r.w.calls) == Sends(w.calls) && Attempts(r.w.kv) == Attempts(w.kv)
      && SameKey(w.kv, r.w.kv, WakeLastSent)
      && (WakeFailed in w.kv ==> WakeFailed in r.w.kv)
      && (Failures(r.w.events) == Failures(w.events)
          || (Failures(r.w.events) == Failures(w.events) + 1 && WakeFailed in r.w.kv))
  {
    RecordedAppend(w.events, Event(env.now, HostWakeFailed, HOST, "schedule", cfg.dryRun), HostWakeFailed);
    hide Sends, Recorded;
  }

  lemma RetryWakeEffect(cfg: Config, env: Env, w: World)
    ensures var r, sent := RetryWake(cfg, env, w), Sends(RetryWake(cfg, env, w).w.calls) - Sends(w.calls);
      && 0 <= sent <= 1
      && (sent == 1 ==> Attempts(w.kv) < cfg.wolRetries && Failures(r.w.events) == Failures(w.events))
      && (sent == 1 && r.Ok? ==> Attempts(r.w.kv) == Attempts(w.kv) + 1
                                 && WakeLastSent in r.w.kv && r.w.kv[WakeLastSent] == env.now)
      && (Attempts(r.w.kv) == Attempts(w.kv)
          || (Attempts(w.kv) < cfg.wolRetries && Attempts(r.w.kv) == Attempts(w.kv) + 1))
      && (WakeLastSent in w.kv ==> WakeLastSent in r.w.kv)
      && (sent == 0 && !cfg.dryRun ==> SameKey(w.kv, r.w.kv, WakeLastSent))
      && (WakeFailed in w.kv ==> WakeFailed in r.w.kv)
      && (Failures(r.w.events) == Failures(w.events)
          || (Failures(r.w.events) == Failures(w.events) + 1 && WakeFailed in r.w.kv))
      && (cfg.dryRun ==> sent == 0)
  {
    hide SendWoL, GiveUp, NoteRetry;
    var g := GetState(env, w, WakeAttempts);
    GiveUpEffect(cfg, env, g.w);
    var s := SendWoL(cfg, env, g.w);
    SendWoLEffect(cfg, env, g.w);
    NoteRetryEffect(env, s.w, Attempts(w.kv) + 1);
  }

  lemma PursueKeepsBound(cfg: Config, env: Env, w: World, s0: int, cuts: nat)
    requires Bounded(cfg, w.kv, Sends(w.calls) - s0, cuts)
    ensures var r := PursueWake(cfg, env, w);
      Bounded(cfg, r.w.kv, Sends(r.w.calls) - s0, cuts + CutShort(w, r))
  {
    hide FirstWake, RetryWake, Bounded;
    var w2 := w.(ops := w.ops + 2);
    assert Bounded(cfg, w2.kv, Sends(w2.calls) - s0, cuts);
    if WakeLastSent !in w.kv {
      FirstKeepsBound(cfg, env, w2, s0, cuts);
    } else {
      RetryKeepsBound(cfg, env, w2, s0, cuts);
    }
  }

  lemma RetryKeepsBound(cfg: Config, env: Env, w: World, s0: int, cuts: nat)
    requires Bounded(cfg, w.kv, Sends(w.calls) - s0, cuts) && WakeLastSent in w.kv
    ensures var r := RetryWake(cfg, env, w);
      Bounded(cfg, r.w.kv, Sends(r.w.calls) - s0, cuts + CutShort(w, r))
  {
    hide RetryWake;
    RetryWakeEffect(cfg, env, w);
  }

  lemma FirstKeepsBound(cfg: Config, env: Env, w: World, s0: int, cuts: nat)
    requires Bounded(cfg, w.kv, Sends(w.calls) - s0, cuts) && WakeLastSent !in w.kv
    ensures var r := FirstWake(cfg, env, w);
      Bounded(cfg, r.w.kv, Sends(r.w.calls) - s0, cuts + CutShort(w, r))
  {
    hide FirstWake;
    FirstWakeEffect(cfg, env, w);
  }

  // ----- episodes -----

  /** No tick of the run removes a wake key: no clearWakeState took effect. Ticks that
      touch nothing, such as those of a paused host, are part of the episode. */
  ghost predicate Episode(cfg: Config, w: World, envs: seq<Env>) {
    envs == [] ||
    var before := After(cfg, w, envs[..|envs| - 1]);
    && Episode(cfg, w, envs[..|envs| - 1])
    && forall k :: k in WAKE_KEYS && k in before.kv ==> k in NextTick(cfg, envs[|envs| - 1], before).w.kv
  }

  /** Ticks that sent a packet and then failed before storing it. */
  ghost function Cuts(cfg: Config, w: World, envs: seq<Env>): nat {
    if envs == [] then 0
    else
      var before := After(cfg, w, envs[..|envs| - 1]);
      Cuts(cfg, w, envs[..|envs| - 1]) + CutShort(before, NextTick(cfg, envs[|envs| - 1], before))
  }

  lemma TickKeepsBound(cfg: Config, env: Env, w: World, s0: int, cuts: nat)
    requires Bounded(cfg, w.kv, Sends(w.calls) - s0, cuts)
    requires forall k :: k in WAKE_KEYS && k in w.kv ==> k in NextTick(cfg, env, w).w.kv
    ensures var r := NextTick(cfg, env, w);
      Bounded(cfg, r.w.kv, Sends(r.w.calls) - s0, cuts + CutShort(w, r))
  {
    hide Tick, PursueWake;
    var idle := w.(ops := 0);
    var pursued, w1 := TickWake(cfg, env, idle);
    if pursued { PursueKeepsBound(cfg, env, w1, s0, cuts); }
  }

  lemma {:induction false} EpisodeKeepsBound(cfg: Config, w: World, envs: seq<Env>)
    requires WakeAttempts !in w.kv && Episode(cfg, w, envs)
    ensures var w' := After(cfg, w, envs);
      Bounded(cfg, w'.kv, Sends(w'.calls) - Sends(w.calls), Cuts(cfg, w, envs))
  {
    hide NextTick;
    if envs != [] {
      var rest := envs[..|envs| - 1];
      EpisodeKeepsBound(cfg, w, rest);
      TickKeepsBound(cfg, envs[|envs| - 1], After(cfg, w, rest), Sends(w.calls), Cuts(cfg, w, rest));
    }
  }

  /** In one wake episode, whatever fails, at most max(1, retries) packets are sent plus
      one for every tick that failed to store the packet it had sent. */
  lemma EpisodeSendsBounded(cfg: Config, w: World, envs: seq<Env>)
    requires WakeAttempts !in w.kv && Episode(cfg, w, envs)
    ensures Sends(After(cfg, w, envs).calls) - Sends(w.calls) <= Max(1, cfg.wolRetries) + Cuts(cfg, w, envs)
  {
    hide NextTick, Episode;
    EpisodeKeepsBound(cfg, w, envs);
  }

  /** When the packets of a run were sent. */
  ghost function SendTimes(cfg: Config, w: World, envs: seq<Env>): seq<int> {
    if envs == [] then []
    else
      var rest, env := envs[..|envs| - 1], envs[|envs| - 1];
      var before := After(cfg, w, rest);
      SendTimes(cfg, w, rest) +
        if Sends(NextTick(cfg, env, before).w.calls) > Sends(before.calls) then [env.now] else []
  }

  /** What a tick does to the record of the last packet. */
  lemma TickSpacing(cfg: Config, env: Env, w: World)
    requires forall k :: k in WAKE_KEYS && k in w.kv ==> k in NextTick(cfg, env, w).w.kv
    requires CutShort(w, NextTick(cfg, env, w)) == 0
    ensures var r := NextTick(cfg, env, w);
      if Sends(r.w.calls) > Sends(w.calls) then
        && (WakeLastSent in w.kv ==> env.now - w.kv[WakeLastSent] >= cfg.wakeTimeout)
        && WakeLastSent in r.w.kv && r.w.kv[WakeLastSent] == env.now
      else cfg.dryRun || SameKey(w.kv, r.w.kv, WakeLastSent)
    ensures cfg.dryRun ==> Sends(NextTick(cfg, env, w).w.calls) == Sends(w.calls)
  {
    hide Tick, PursueWake;
    var pursued, w1 := TickWake(cfg, env, w.(ops := 0));
    if pursued {
      assert SameKey(w.kv, w1.kv, WakeLastSent) by { assert WakeLastSent in WAKE_KEYS; }
      PursueSpacing(cfg, env, w1);
    } else {
      assert WakeLastSent in WAKE_KEYS;
    }
  }

  lemma PursueSpacing(cfg: Config, env: Env, w: World)
    ensures var r := PursueWake(cfg, env, w);
      && (Sends(r.w.calls) > Sends(w.calls) && WakeLastSent in w.kv ==> env.now - w.kv[WakeLastSent] >= cfg.wakeTimeout)
      && (Sends(r.w.calls) > Sends(w.calls) && CutShort(w, r) == 0 ==>
            WakeLastSent in r.w.kv && r.w.kv[WakeLastSent] == env.now)
      && (Sends(r.w.calls) <= Sends(w.calls) ==> cfg.dryRun || SameKey(w.kv, r.w.kv, WakeLastSent))
      && (cfg.dryRun ==> Sends(r.w.calls) == Sends(w.calls))
  {
    hide FirstWake, RetryWake, Sends, Recorded;
    var w2 := w.(ops := w.ops + 2);
    assert WakeLastSent in WAKE_KEYS;
    if WakeLastSent !in w.kv {
      FirstWakeEffect(cfg, env, w2);
    } else {
      RetryWakeEffect(cfg, env, w2);
    }
  }

  /** With no tick cut short, packets of one episode are at least the timeout apart. */
  lemma {:induction false} EpisodeSendsSpaced(cfg: Config, w: World, envs: seq<Env>)
    requires Episode(cfg, w, envs) && Cuts(cfg, w, envs) == 0
    ensures var times := SendTimes(cfg, w, envs);
      && (forall i :: 0 < i < |times| ==> times[i] - times[i - 1] >= cfg.wakeTimeout)
      && (times != [] ==> WakeLastSent in After(cfg, w, envs).kv
                          && After(cfg, w, envs).kv[WakeLastSent] == times[|times| - 1])
      && (cfg.dryRun ==> times == [])
  {
    hide NextTick;
    if envs != [] {
      var rest := envs[..|envs| - 1];
      EpisodeSendsSpaced(cfg, w, rest);
      TickSpacing(cfg, envs[|envs| - 1], After(cfg, w, rest));
    }
  }

  lemma PursueGivesUpOnce(cfg: Config, env: Env, w: World)
    ensures var r := PursueWake(cfg, env, w);
      && (WakeFailed in w.kv ==> WakeFailed in r.w.kv && Failures(r.w.events) == Failures(w.events))
      && (Failures(r.w.events) == Failures(w.events)
          || (Failures(r.w.events) == Failures(w.events) + 1 && WakeFailed in r.w.kv))
  {
    hide FirstWake, RetryWake;
    var w2 := w.(ops := w.ops + 2);
    if WakeLastSent !in w.kv {
      FirstWakeEffect(cfg, env, w2);
    } else {
      RetryWakeEffect(cfg, env, w2);
    }
  }

  /** Giving up is recorded at most once per episode, cut-short ticks or not. */
  lemma {:induction false} EpisodeGivesUpOnce(cfg: Config, w: World, envs: seq<Env>)
    requires Episode(cfg, w, envs)
    ensures var w' := After(cfg, w, envs);
      && Failures(w'.events) - Failures(w.events) <= 1
      && (Failures(w'.events) > Failures(w.events) ==> WakeFailed in w'.kv)
      && (WakeFailed in w.kv ==> WakeFailed in w'.kv && Failures(w'.events) == Failures(w.events))
  {
    hide Tick, PursueWake;
    if envs != [] {
      var rest, env := envs[..|envs| - 1], envs[|envs| - 1];
      var before := After(cfg, w, rest);
      EpisodeGivesUpOnce(cfg, w, rest);
      var pursued, w1 := TickWake(cfg, env, before.(ops := 0));
      assert WakeFailed in WAKE_KEYS;
      if pursued { PursueGivesUpOnce(cfg, env, w1); }
    }
  }

  // ----- success -----

  /** When a wanted host answers, whatever else was stored, an episode in progress is recorded
      as a success and the wake keys go, unless one of these operations fails. */
  lemma WakeCompletion(cfg: Config, env: Env, w: World, bypass: bool, listing: map<string, bool>)
    requires env.reachable
    ensures var r := ActOnHost(cfg, env, w, Wish(true, true), bypass, listing);
      && (AllOK(env) ==> r.Ok?)
      && r.w.calls == w.calls
      && (r.Ok? ==>
            && !r.value
            && r.w.kv == (if WakeLastSent in w.kv then w.kv[LastWakeOK := env.now] else w.kv)
                          - {WakeAttempts, WakeLastSent, WakeFailed}
            && r.w.events == w.events +
                 if WakeLastSent in w.kv then [Event(env.now, HostWakeOK, HOST, "schedule", false)] else [])
  {
    hide ShutdownHost, PursueWake;
  }

  /** A success is recorded only of an episode in progress, which it ends unless the step
      fails before the time of the last packet is removed. */
  ghost predicate SuccessStep<T>(w: World, r: Res<T>) {
    && Successes(w.events) <= Successes(r.w.events) <= Successes(w.events) + 1
    && (Successes(r.w.events) > Successes(w.events) ==>
          WakeLastSent in w.kv && (WakeLastSent in r.w.kv ==> r.Fail?))
  }

  ghost predicate NoSuccess(w: World, w': World) { Successes(w'.events) == Successes(w.events) }

  lemma FirstNoSuccess(cfg: Config, env: Env, w: World)
    ensures NoSuccess(w, FirstWake(cfg, env, w).w)
  {
    hide SendWoL;
    SendWoLFrame(cfg, env, w);
    RecordedAppend(w.events, Event(env.now, HostWake, HOST, "schedule", cfg.dryRun), HostWakeOK);
    hide Recorded;
  }

  lemma RetryNoSuccess(cfg: Config, env: Env, w: World)
    ensures NoSuccess(w, RetryWake(cfg, env, w).w)
  {
    hide SendWoL;
    SendWoLFrame(cfg, env, w.(ops := w.ops + 1));
    hide AddsAtMostWakeCall;
    RecordedAppend(w.events, Event(env.now, HostWakeFailed, HOST, "schedule", cfg.dryRun), HostWakeOK);
    hide Recorded;
  }

  lemma PursueNoSuccess(cfg: Config, env: Env, w: World)
    ensures NoSuccess(w, PursueWake(cfg, env, w).w)
  {
    hide FirstWake, RetryWake, Recorded;
    FirstNoSuccess(cfg, env, w.(ops := w.ops + 2));
    RetryNoSuccess(cfg, env, w.(ops := w.ops + 2));
  }

  lemma GuestWorkNoSuccess(w: World, w': World)
    requires AddsOnlyGuestEvents(w, w')
    ensures NoSuccess(w, w')
  {
    RecordedOfExtension(w.events, w'.events, HostWakeOK);
  }

  lemma ProceedNoSuccess(cfg: Config, env: Env, w: World, listing: map<string, bool>)
    ensures NoSuccess(w, ProceedShutdown(cfg, env, w, listing).w)
  {
    hide StopAll, StopNode, Reverse;
    var w2 := DeleteState(env, DeleteState(env, w, PostponedNotified).w, DangerGrace).w;
    var r := StopAll(cfg, env, w2, Reverse(cfg.order), listing);
    StopAllFrame(cfg, env, w2, Reverse(cfg.order), listing);
    GuestWorkNoSuccess(w2, r.w);
    var w' := StopNode(cfg, env, r.w).w;
    StopNodeFrame(cfg, env, r.w);
    if w'.events != r.w.events {
      var e :| w'.events == r.w.events + [e] && e.kind == HostShutdown;
      RecordedAppend(r.w.events, e, HostWakeOK);
    }
  }

  lemma CompleteSuccess(env: Env, w: World)
    ensures var r := CompleteWake(env, w);
      && Successes(w.events) <= Successes(r.w.events) <= Successes(w.events) + 1
      && (Successes(r.w.events) > Successes(w.events) ==> WakeLastSent in w.kv && r.Ok?)
  {
    RecordedAppend(w.events, Event(env.now, HostWakeOK, HOST, "schedule", false), HostWakeOK);
    hide Recorded;
  }

  lemma ActSuccess(cfg: Config, env: Env, w: World, wish: Wish, bypass: bool, listing: map<string, bool>)
    ensures SuccessStep(w, ActOnHost(cfg, env, w, wish, bypass, listing))
  {
    hide CompleteWake, ClearWakeState, ShutdownHost, PursueWake, Recorded;
    var c, d := ClearWakeState(env, w).w, CompleteWake(env, w).w;
    ClearWakeFrame(env, w);
    ClearWakeFrame(env, d);
    ClearWakeClears(env, d);
    ShutdownNoSuccess(cfg, env, c, listing, bypass);
    PursueNoSuccess(cfg, env, w);
    CompleteSuccess(env, w);
  }

  lemma ClearWakeClears(env: Env, w: World)
    ensures ClearWakeState(env, w).Ok? ==> WakeLastSent !in ClearWakeState(env, w).w.kv
  {
  }

  lemma ShutdownNoSuccess(cfg: Config, env: Env, w: World, listing: map<string, bool>, bypass: bool)
    ensures NoSuccess(w, ShutdownHost(cfg, env, w, listing, bypass).w)
  {
    hide TaskCheck, ProceedShutdown, Recorded;
    TaskCheckFrame(cfg, env, w, bypass);
    ProceedNoSuccess(cfg, env, TaskCheck(cfg, env, w, bypass).w, listing);
  }

  lemma TickSuccess(cfg: Config, env: Env, w: World)
    ensures SuccessStep(w, NextTick(cfg, env, w))
  {
    hide Tick, Prologue, WeatherSafety, DecideHost, ActOnHost, GuestPass, Listing, Recorded;
    var st := TickStages(cfg, env, w.(ops := 0));
    match st {
      case NoIntro =>
      case NoSafety(intro, w1) => WeatherSafetyFrame(cfg, env, w1);
      case NoWish(intro, w1, safety, w2) => WeatherSafetyFrame(cfg, env, w1);
      case Acting(intro, w1, safety, w2, wish, w3) =>
        WeatherSafetyFrame(cfg, env, w1);
        var a := ActOnHost(cfg, env, w3, wish, safety.bypass, Listing(env));
        ActSuccess(cfg, env, w3, wish, safety.bypass, Listing(env));
        GuestPassFrame(cfg, env, a.w, intro.lastTick, Listing(env));
        GuestWorkNoSuccess(a.w, GuestPass(cfg, env, a.w, intro.lastTick, Listing(env)).w);
        assert WakeLastSent !in WEATHER_KEYS;
    }
  }

  function InProgress(kv: KV): nat { if WakeLastSent in kv then 1 else 0 }

  /** Ticks that began an episode by storing the time of its first packet. */
  ghost function Begun(cfg: Config, w: World, envs: seq<Env>): nat {
    if envs == [] then 0
    else
      var before := After(cfg, w, envs[..|envs| - 1]);
      var after := NextTick(cfg, envs[|envs| - 1], before).w;
      Begun(cfg, w, envs[..|envs| - 1]) + if WakeLastSent !in before.kv && WakeLastSent in after.kv then 1 else 0
  }

  /** Ticks that recorded a success and then failed before its episode was cleared. */
  ghost function CutClears(cfg: Config, w: World, envs: seq<Env>): nat {
    if envs == [] then 0
    else
      var before := After(cfg, w, envs[..|envs| - 1]);
      var r := NextTick(cfg, envs[|envs| - 1], before);
      CutClears(cfg, w, envs[..|envs| - 1]) +
        if r.Fail? && Successes(r.w.events) > Successes(before.events) && WakeLastSent in r.w.kv then 1 else 0
  }

  /** Ticks that ended an episode without recording a success. */
  ghost function Dropped(cfg: Config, w: World, envs: seq<Env>): nat {
    if envs == [] then 0
    else
      var before := After(cfg, w, envs[..|envs| - 1]);
      var after := NextTick(cfg, envs[|envs| - 1], before).w;
      Dropped(cfg, w, envs[..|envs| - 1]) +
        if WakeLastSent in before.kv && WakeLastSent !in after.kv && NoSuccess(before, after) then 1 else 0
  }

  /** The successes of any run, whatever fails: one for every episode begun, except those
      still going on and those dropped, and one more for every tick that failed between
      recording a success and clearing its episode. */
  lemma {:induction false} SuccessesAccounted(cfg: Config, w: World, envs: seq<Env>)
    ensures var w' := After(cfg, w, envs);
      Successes(w'.events) - Successes(w.events) + InProgress(w'.kv) + Dropped(cfg, w, envs)
        == InProgress(w.kv) + Begun(cfg, w, envs) + CutClears(cfg, w, envs)
  {
    hide NextTick, Recorded;
    if envs != [] {
      var rest := envs[..|envs| - 1];
      SuccessesAccounted(cfg, w, rest);
      TickSuccess(cfg, envs[|envs| - 1], After(cfg, w, rest));
    }
  }
}
