/** The calls of a completed guest pass: their order among dependents, and who they are
    credited to. */
module EnginePasses {
  import opened Prelude
  import opened Overrides
  import opened Guests
  import opened Ordering
  import opened EngineSpec
  import opened EngineFrames
  import opened EngineShutdown
  import opened EngineGuests

  // ----- order -----

  lemma {:induction false} CallsForMember(names: seq<string>, actions: map<string, Planned>, start: bool, k: nat)
    requires WellNamed(actions, start) && k < |CallsFor(names, actions)|
    ensures var c := CallsFor(names, actions)[k];
      c.GuestCall? && c.start == start && c.outcome == TaskOK && c.name in names
    decreases |names|
  {
    if names[0] in actions {
      if k > 0 { CallsForMember(names[1..], actions, start, k - 1); }
    } else {
      CallsForMember(names[1..], actions, start, k);
    }
  }

  /** Call k switched guest n. */
  ghost predicate Switched(calls: seq<Call>, n: string, start: bool, k: int) {
    0 <= k < |calls| && calls[k] == GuestCall(n, start, TaskOK)
  }

  lemma {:induction false} CallsForPrecede(names: seq<string>, actions: map<string, Planned>, start: bool,
                                           a: string, b: string, k: int, l: int)
    requires WellNamed(actions, start) && k < l
    requires Switched(CallsFor(names, actions), a, start, k) && Switched(CallsFor(names, actions), b, start, l)
    ensures Precedes(names, a, b)
    decreases |names|
  {
    var rest := CallsFor(names[1..], actions);
    if names[0] in actions && k == 0 {
      CallsForMember(names[1..], actions, start, l - 1);
      assert rest[l - 1].name == b;
      var j :| 0 <= j < |names[1..]| && names[1..][j] == b;
      assert names[0] == a && names[j + 1] == b;
    } else {
      var d := if names[0] in actions then 1 else 0;
      assert Switched(rest, a, start, k - d) && Switched(rest, b, start, l - d);
      CallsForPrecede(names[1..], actions, start, a, b, k - d, l - d);
      PrecedesInTail(names, a, b);
    }
  }

  lemma PrecedesInTail(names: seq<string>, a: string, b: string)
    requires names != [] && Precedes(names[1..], a, b)
    ensures Precedes(names, a, b)
  {
    var i, j :| 0 <= i < j < |names[1..]| && names[1..][i] == a && names[1..][j] == b;
    assert names[i + 1] == a && names[j + 1] == b;
  }

  /** In an order of the guests, what stands first does not depend on what stands later. */
  lemma EarlierNeedsNoLater(guests: seq<GuestConfig>, order: seq<string>, i: int, j: int)
    requires InOrder(guests, order) && DependsOn(guests, i, j)
    ensures guests[i].name != guests[j].name && !Precedes(order, guests[i].name, guests[j].name)
  {
    var l :| 0 <= l < |order| && order[l] == guests[i].name;
    assert guests[j].name in order[..l];
    var k :| 0 <= k < l && order[..l][k] == guests[j].name;
    assert order[k] == guests[j].name;
  }

  lemma ReversedPrecedes(order: seq<string>, a: string, b: string)
    requires Precedes(Reverse(order), a, b)
    ensures Precedes(order, b, a)
  {
    ReverseAt(order);
    var i, j :| 0 <= i < j < |Reverse(order)| && Reverse(order)[i] == a && Reverse(order)[j] == b;
    assert order[|order| - 1 - j] == b && order[|order| - 1 - i] == a;
  }

  ghost predicate OnlySwitches(calls: seq<Call>) {
    forall k :: 0 <= k < |calls| ==> calls[k].GuestCall? && calls[k].outcome == TaskOK
  }

  ghost predicate StopsBeforeStarts(calls: seq<Call>) {
    forall a, b, k, l :: Switched(calls, a, false, k) && Switched(calls, b, true, l) ==> k < l
  }

  /** Guest i depends on guest j, call k switched i and call l switched j the same way. */
  ghost predicate SwitchedBoth(guests: seq<GuestConfig>, calls: seq<Call>, i: int, j: int, start: bool,
                               k: int, l: int)
  {
    DependsOn(guests, i, j) && Switched(calls, guests[i].name, start, k) && Switched(calls, guests[j].name, start, l)
  }

  /** Among stops a dependent comes before what it depends on, among starts after it. */
  ghost predicate DependenciesKept(guests: seq<GuestConfig>, calls: seq<Call>) {
    forall i, j, start, k, l :: SwitchedBoth(guests, calls, i, j, start, k, l) ==> if start then l < k else k < l
  }

  /** Every call switched a guest, its task OK; all stops came before all starts; and
      dependencies were kept. */
  ghost predicate SwitchedInOrder(guests: seq<GuestConfig>, calls: seq<Call>) {
    OnlySwitches(calls) && StopsBeforeStarts(calls) && DependenciesKept(guests, calls)
  }

  /** The calls of a pass are its stops and then its starts. */
  lemma SwitchedWhere(order: seq<string>, p: Plans, n: string, start: bool, k: int)
    requires WellNamed(p.stops, false) && WellNamed(p.starts, true)
    ensures var stops, starts := CallsFor(Reverse(order), p.stops), CallsFor(order, p.starts);
      Switched(stops + starts, n, start, k) <==>
        if start then Switched(starts, n, true, k - |stops|) else Switched(stops, n, false, k)
  {
    var stops, starts := CallsFor(Reverse(order), p.stops), CallsFor(order, p.starts);
    if 0 <= k < |stops| { CallsForMember(Reverse(order), p.stops, false, k); }
    if |stops| <= k < |stops| + |starts| { CallsForMember(order, p.starts, true, k - |stops|); }
    hide CallsFor, Reverse, WellNamed;
    assert 0 <= k < |stops + starts| ==> (stops + starts)[k] == if k < |stops| then stops[k] else starts[k - |stops|];
  }

  lemma StopsInOrderOf(guests: seq<GuestConfig>, order: seq<string>, p: Plans, i: int, j: int, k: int, l: int)
    requires InOrder(guests, order) && WellNamed(p.stops, false) && DependsOn(guests, i, j)
    requires var stops := CallsFor(Reverse(order), p.stops);
      Switched(stops, guests[i].name, false, k) && Switched(stops, guests[j].name, false, l)
    ensures k < l
  {
    EarlierNeedsNoLater(guests, order, i, j);
    if l < k {
      CallsForPrecede(Reverse(order), p.stops, false, guests[j].name, guests[i].name, l, k);
      ReversedPrecedes(order, guests[j].name, guests[i].name);
    }
  }

  lemma StartsInOrderOf(guests: seq<GuestConfig>, order: seq<string>, p: Plans, i: int, j: int, k: int, l: int)
    requires InOrder(guests, order) && WellNamed(p.starts, true) && DependsOn(guests, i, j)
    requires var starts := CallsFor(order, p.starts);
      Switched(starts, guests[i].name, true, k) && Switched(starts, guests[j].name, true, l)
    ensures l < k
  {
    EarlierNeedsNoLater(guests, order, i, j);
    if k < l { CallsForPrecede(order, p.starts, true, guests[i].name, guests[j].name, k, l); }
  }

  lemma PlansOnlySwitch(order: seq<string>, p: Plans)
    requires WellNamed(p.stops, false) && WellNamed(p.starts, true)
    ensures OnlySwitches(CallsFor(Reverse(order), p.stops) + CallsFor(order, p.starts))
  {
    var stops, starts := CallsFor(Reverse(order), p.stops), CallsFor(order, p.starts);
    var calls := stops + starts;
    forall k | 0 <= k < |calls| ensures calls[k].GuestCall? && calls[k].outcome == TaskOK {
      if k < |stops| {
        CallsForMember(Reverse(order), p.stops, false, k);
      } else {
        CallsForMember(order, p.starts, true, k - |stops|);
      }
    }
  }

  lemma PlansStopFirst(order: seq<string>, p: Plans)
    requires WellNamed(p.stops, false) && WellNamed(p.starts, true)
    ensures StopsBeforeStarts(CallsFor(Reverse(order), p.stops) + CallsFor(order, p.starts))
  {
    hide CallsFor, Reverse, WellNamed;
    var stops, starts := CallsFor(Reverse(order), p.stops), CallsFor(order, p.starts);
    forall a, b, k, l | Switched(stops + starts, a, false, k) && Switched(stops + starts, b, true, l) ensures k < l {
      SwitchedWhere(order, p, a, false, k);
      SwitchedWhere(order, p, b, true, l);
    }
  }

  lemma PlansKeepDependency(guests: seq<GuestConfig>, order: seq<string>, p: Plans, i: int, j: int, start: bool,
                            k: int, l: int)
    requires InOrder(guests, order) && WellNamed(p.stops, false) && WellNamed(p.starts, true)
    requires SwitchedBoth(guests, CallsFor(Reverse(order), p.stops) + CallsFor(order, p.starts), i, j, start, k, l)
    ensures if start then l < k else k < l
  {
    hide CallsFor, Reverse, WellNamed, InOrder, Switched;
    SwitchedWhere(order, p, guests[i].name, start, k);
    SwitchedWhere(order, p, guests[j].name, start, l);
    var n := |CallsFor(Reverse(order), p.stops)|;
    if start {
      StartsInOrderOf(guests, order, p, i, j, k - n, l - n);
    } else {
      StopsInOrderOf(guests, order, p, i, j, k, l);
    }
  }

  lemma PlansInOrder(guests: seq<GuestConfig>, order: seq<string>, p: Plans)
    requires InOrder(guests, order) && WellNamed(p.stops, false) && WellNamed(p.starts, true)
    ensures SwitchedInOrder(guests, CallsFor(Reverse(order), p.stops) + CallsFor(order, p.starts))
  {
    PlansOnlySwitch(order, p);
    PlansStopFirst(order, p);
    hide CallsFor, Reverse, WellNamed, InOrder, OnlySwitches, StopsBeforeStarts, SwitchedBoth;
    var calls := CallsFor(Reverse(order), p.stops) + CallsFor(order, p.starts);
    forall i, j, start, k, l | SwitchedBoth(guests, calls, i, j, start, k, l) ensures if start then l < k else k < l {
      PlansKeepDependency(guests, order, p, i, j, start, k, l);
    }
  }

  /** With the order New computed, a completed live pass never starts a guest before one it
      depends on, nor stops one before a guest that depends on it. */
  lemma PassInOrder(cfg: Config, env: Env, w: World)
    requires GoodConfig(cfg) && InOrder(cfg.guests, cfg.order) && !cfg.dryRun
    requires Completed(NextTick(cfg, env, w))
    ensures w.calls <= NextTick(cfg, env, w).w.calls
    ensures SwitchedInOrder(cfg.guests, NewCalls(w, NextTick(cfg, env, w).w))
  {
    hide NextTick, GuestPass, GoodConfig, InOrder, SwitchedInOrder, CallsFor;
    var a := CompletedIsPass(cfg, env, w);
    var p := PassCalls(cfg, env, a, LastTickOf(w.kv), env.listing.value);
    assert NewCalls(w, NextTick(cfg, env, w).w)
        == CallsFor(Reverse(cfg.order), p.stops) + CallsFor(cfg.order, p.starts);
    PlansInOrder(cfg.guests, cfg.order, p);
  }

  // ----- credit -----

  /** Who a switch of guest n now is credited to: the creator of the row in effect, or the
      schedule. */
  function Actor(env: Env, n: string): string {
    var o := EffectiveOverride(env.rows, n, env.now);
    if o.Some? then o.value.createdBy else "schedule"
  }

  ghost predicate Credited(env: Env, actions: map<string, Planned>) {
    forall n :: n in actions ==> actions[n].name == n && actions[n].actor == Actor(env, n)
  }

  lemma PlanGuestCredits(cfg: Config, env: Env, w: World, lastTick: Option<int>, listing: map<string, bool>,
                         g: GuestConfig)
    ensures var r := PlanGuest(cfg, env, w, lastTick, listing, g);
      r.Ok? && r.value.Some? ==> r.value.value.name == g.name && r.value.value.actor == Actor(env, g.name)
  {
    hide EffectiveOverrideOf, Triggered, GuestWish;
  }

  lemma {:induction false} PlanCredits(cfg: Config, env: Env, w: World, lastTick: Option<int>,
                                       listing: map<string, bool>, i: nat, p: Plans)
    requires i <= |cfg.guests| && Credited(env, p.starts) && Credited(env, p.stops)
    ensures var r := PlanFrom(cfg, env, w, lastTick, listing, i, p);
      r.Ok? ==> Credited(env, r.value.starts) && Credited(env, r.value.stops)
    decreases |cfg.guests| - i
  {
    hide PlanGuest, Actor;
    if i < |cfg.guests| {
      var a := PlanGuest(cfg, env, w, lastTick, listing, cfg.guests[i]);
      PlanGuestCredits(cfg, env, w, lastTick, listing, cfg.guests[i]);
      if a.Ok? { PlanCredits(cfg, env, a.w, lastTick, listing, i + 1, AddPlan(p, a.value)); }
    }
  }

  /** One event per call: of this instant, for the same guest, of the matching kind, live, and
      credited to the row in effect or to the schedule. */
  ghost predicate Accounted(env: Env, calls: seq<Call>, events: seq<Event>) {
    |calls| == |events|
    && forall k :: 0 <= k < |calls| ==>
         calls[k].GuestCall?
         && events[k] == Event(env.now, if calls[k].start then GuestStart else GuestShutdown, calls[k].name,
                               Actor(env, calls[k].name), false)
  }

  lemma {:induction false} ExecuteAllAccounted(cfg: Config, env: Env, w: World, names: seq<string>,
                                               actions: map<string, Planned>, failed: nat)
    returns (es: seq<Event>)
    requires !cfg.dryRun && Credited(env, actions)
    ensures var r := ExecuteAll(cfg, env, w, names, actions, failed);
      r.1 == failed ==> r.0.events == w.events + es && Accounted(env, CallsFor(names, actions), es)
    decreases |names|
  {
    hide Actor;
    es := [];
    if names != [] {
      if names[0] in actions {
        var r := Execute(cfg, env, w, actions[names[0]]);
        var more := ExecuteAllAccounted(cfg, env, r.w, names[1..], actions, if r.Fail? then failed + 1 else failed);
        ExecuteAllExact(cfg, env, r.w, names[1..], actions, if r.Fail? then failed + 1 else failed);
        es := [EventOf(env, actions[names[0]], false)] + more;
      } else {
        es := ExecuteAllAccounted(cfg, env, w, names[1..], actions, failed);
      }
    }
  }

  lemma ExecutionAccounted(cfg: Config, env: Env, w: World, p: Plans) returns (es: seq<Event>)
    requires !cfg.dryRun && Credited(env, p.stops) && Credited(env, p.starts)
    ensures var s := ExecuteAll(cfg, env, w, Reverse(cfg.order), p.stops, 0);
      var r := ExecuteAll(cfg, env, s.0, cfg.order, p.starts, s.1);
      r.1 == 0 ==>
        && r.0.events == w.events + es
        && Accounted(env, CallsFor(Reverse(cfg.order), p.stops) + CallsFor(cfg.order, p.starts), es)
  {
    hide ExecuteAll, CallsFor, Reverse, Accounted, Credited;
    var stops := ExecuteAllAccounted(cfg, env, w, Reverse(cfg.order), p.stops, 0);
    ExecuteAllExact(cfg, env, w, Reverse(cfg.order), p.stops, 0);
    var (w2, f2) := ExecuteAll(cfg, env, w, Reverse(cfg.order), p.stops, 0);
    var starts := ExecuteAllAccounted(cfg, env, w2, cfg.order, p.starts, f2);
    ExecuteAllExact(cfg, env, w2, cfg.order, p.starts, f2);
    es := stops + starts;
    if ExecuteAll(cfg, env, w2, cfg.order, p.starts, f2).1 == 0 {
      AccountedJoin(env, CallsFor(Reverse(cfg.order), p.stops), stops, CallsFor(cfg.order, p.starts), starts);
    }
  }

  lemma AccountedJoin(env: Env, a: seq<Call>, x: seq<Event>, b: seq<Call>, y: seq<Event>)
    requires Accounted(env, a, x) && Accounted(env, b, y)
    ensures Accounted(env, a + b, x + y)
  {
    hide Actor;
  }

  /** A completed live pass leaves one audit event per guest it switched, in order, of the
      matching kind and credited to the row in effect. */
  lemma PassIsAudited(cfg: Config, env: Env, w: World, lastTick: Option<int>, listing: map<string, bool>)
    returns (es: seq<Event>)
    requires !cfg.dryRun && GuestPass(cfg, env, w, lastTick, listing).Ok?
    ensures var r := GuestPass(cfg, env, w, lastTick, listing);
      r.w.events == w.events + es && Accounted(env, NewCalls(w, r.w), es)
  {
    var empty := Plans(map[], map[]);
    PlanFrame(cfg, env, w, lastTick, listing, 0, empty);
    PlanCredits(cfg, env, w, lastTick, listing, 0, empty);
    hide PlanFrom, ExecuteAll, CallsFor, Reverse, Accounted, Credited;
    var p := PlanFrom(cfg, env, w, lastTick, listing, 0, empty);
    es := ExecutionAccounted(cfg, env, p.w, p.value);
    ExecutionCalls(cfg, env, p.w, p.value);
    var cs := CallsFor(Reverse(cfg.order), p.value.stops) + CallsFor(cfg.order, p.value.starts);
    assert NewCalls(w, GuestPass(cfg, env, w, lastTick, listing).w) == cs;
  }
}
