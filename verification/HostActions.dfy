/** The "off until the schedule next turns on" action of internal/web/handlers_actions.go
    and the 8-day look-ahead behind it. */
module HostActions {
  import opened Prelude
  import opened Signals
  import opened Schedules
  import opened Coverage
  import opened Overrides

  /** t.AddDate(0, 0, n): the same time of day, n calendar days later. */
  function AddDays(z: Zone, t: int, n: int): int {
    z.mid(z.dayOf(t) + n) + (t - z.mid(z.dayOf(t)))
  }

  method NextHostOn(z: Zone, host: Schedule, now: int) returns (at: Option<int>)
    ensures at == FirstOn(CrossingsOf(z, host, now, AddDays(z, now, 8)))
  {
    var bs := Crossings(z, host, now, AddDays(z, now, 8));
    var k := 0;
    while k < |bs|
      invariant 0 <= k <= |bs|
      invariant FirstOn(bs) == FirstOn(bs[k..])
    {
      if bs[k].on { return Some(bs[k].at); }
      k := k + 1;
    }
    return None;
  }

  function FirstOn(bs: seq<Boundary>): Option<int> {
    if bs == [] then None else if bs[0].on then Some(bs[0].at) else FirstOn(bs[1..])
  }

  ghost predicate TurnsOn(z: Zone, s: Schedule, t: int) { OnAt(z, s, t) && !OnAt(z, s, t - 1) }

  lemma {:induction false} ChangeIsListed(f: Signal, from: int, upto: int, t: int)
    requires from < t <= upto && f(t) != f(t - 1)
    ensures Boundary(t, f(t)) in Changes(f, from, upto)
    decreases upto - from
  {
    if t < upto { ChangeIsListed(f, from, upto - 1, t); }
  }

  lemma {:induction false} ListedIsChange(f: Signal, from: int, upto: int, b: Boundary)
    requires b in Changes(f, from, upto)
    ensures from < b.at <= upto && b.on == f(b.at) != f(b.at - 1)
    decreases upto - from
  {
    if from < upto && b in Changes(f, from, upto - 1) { ListedIsChange(f, from, upto - 1, b); }
  }

  lemma {:induction false} FirstOnIsLeast(bs: seq<Boundary>)
    requires forall i, j :: 0 <= i < j < |bs| ==> bs[i].at < bs[j].at
    ensures FirstOn(bs).None? <==> forall b :: b in bs ==> !b.on
    ensures FirstOn(bs).Some? ==> Boundary(FirstOn(bs).value, true) in bs
    ensures FirstOn(bs).Some? ==> forall b :: b in bs && b.on ==> FirstOn(bs).value <= b.at
    decreases |bs|
  {
    if bs != [] && !bs[0].on { FirstOnIsLeast(bs[1..]); }
  }

  /** Some week later or earlier, every turn-on falls in the seven days after `now`. */
  lemma TurnOnWithinWeek(z: Zone, s: Schedule, now: int, t: int) returns (u: int)
    requires Uniform(z) && TurnsOn(z, s, t)
    ensures now < u <= now + WEEK && TurnsOn(z, s, u) && (now < t ==> u <= t)
  {
    var weeks := (t - now - 1) / WEEK;
    u := t - weeks * WEEK;
    WeeklyPeriodic(z, s, t, -weeks);
    WeeklyPeriodic(z, s, t - 1, -weeks);
    assert t - 1 + -weeks * WEEK == u - 1;
  }

  /** FirstOn of the changes of a signal in (now, end] is a turn-on there. */
  lemma FirstOnTurnsOn(f: Signal, now: int, end: int)
    ensures var next := FirstOn(Changes(f, now, end));
      next.Some? ==> now < next.value <= end && f(next.value) && !f(next.value - 1)
  {
    var next := FirstOn(Changes(f, now, end));
    ChangesShape(f, now, end);
    FirstOnIsLeast(Changes(f, now, end));
    if next.Some? { ListedIsChange(f, now, end, Boundary(next.value, true)); }
  }

  /** No turn-on in (now, end] comes before FirstOn of the changes. */
  lemma FirstOnComesFirst(f: Signal, now: int, end: int, t: int)
    requires now < t <= end && f(t) && !f(t - 1)
    ensures var next := FirstOn(Changes(f, now, end)); next.Some? && next.value <= t
  {
    ChangesShape(f, now, end);
    FirstOnIsLeast(Changes(f, now, end));
    ChangeIsListed(f, now, end, t);
    assert Boundary(t, true) in Changes(f, now, end);
  }

  lemma EightDaysAhead(z: Zone, now: int)
    requires Uniform(z)
    ensures AddDays(z, now, 8) == now + 8 * DAY
  {
  }

  /** The look-ahead is complete: nil exactly when the schedule never again goes from
      off to on, otherwise the least such instant, and the schedule is on then. */
  lemma LookAheadComplete(z: Zone, host: Schedule, now: int)
    requires Uniform(z) && ValidSchedule(host)
    ensures var next := FirstOn(CrossingsOf(z, host, now, AddDays(z, now, 8)));
      && (next.None? <==> forall t :: now < t ==> !TurnsOn(z, host, t))
      && (next.Some? ==> now < next.value && TurnsOn(z, host, next.value) && IsOn(z, host, next.value)
                         && forall t :: now < t < next.value ==> !TurnsOn(z, host, t))
  {
    hide OnAt, IsOn, Fits, AddDays, Uniform, ValidSchedule;
    var end := AddDays(z, now, 8);
    var f := Meaning(z, host);
    UniformFits(z, host);
    EightDaysAhead(z, now);
    CrossingsAreChanges(z, host, now, end);
    FirstOnTurnsOn(f, now, end);
    var next := FirstOn(CrossingsOf(z, host, now, end));
    if next.Some? {
      LookBackSuffices(z, host, next.value);
      assert f(next.value) && !f(next.value - 1);
      assert TurnsOn(z, host, next.value);
    }
    forall t | now < t && TurnsOn(z, host, t) ensures next.Some? && next.value <= t {
      var u := TurnOnWithinWeek(z, host, now, t);
      FirstOnComesFirst(f, now, end, u);
    }
  }

  /** So an "off until the schedule next turns on" override gives way exactly when the
      schedule turns on; it never expires exactly when the host schedule, from now on,
      never turns on: because it is always off, or because it is always on. */
  lemma OffUntilScheduleForever(z: Zone, host: Schedule, now: int)
    requires Uniform(z) && ValidSchedule(host)
    ensures FirstOn(CrossingsOf(z, host, now, AddDays(z, now, 8))).None?
       <==> (forall t :: OnAt(z, host, t) == OnAt(z, host, now))
  {
    LookAheadComplete(z, host, now);
    if forall t :: OnAt(z, host, t) == OnAt(z, host, now) {
    } else if forall t :: now < t ==> !TurnsOn(z, host, t) {
      var t :| OnAt(z, host, t) != OnAt(z, host, now);
      SettledState(z, host, now, t);
    }
  }

  const ALWAYS := [Window(EVERY_DAY, 0, 0)]

  lemma AlwaysOn(z: Zone, t: int)
    requires ValidZone(z)
    ensures OnAt(z, ALWAYS, t) && IsOn(z, ALWAYS, t)
  {
    assert Weekday(z.dayOf(t)) in EVERY_DAY;
    assert Covers(z, ALWAYS[0], z.dayOf(t), t);
  }

  lemma AlwaysFits(z: Zone)
    requires ValidZone(z)
    ensures Fits(z, ALWAYS)
  {
    forall d | Applies(ALWAYS[0], d) ensures ALWAYS[0].off <= z.mid(d + 2) - z.mid(d + 1) {
      assert z.mid(d + 1) < z.mid(d + 2);
    }
  }

  /** In every zone a window that is on all day, every day, is always on and has no next
      turn-on, so "off until the schedule next turns on" lasts until somebody ends it. */
  lemma AlwaysOnNeverTurnsOn(z: Zone, now: int)
    requires ValidZone(z)
    ensures forall t :: OnAt(z, ALWAYS, t)
    ensures FirstOn(CrossingsOf(z, ALWAYS, now, AddDays(z, now, 8))).None?
  {
    assert z.mid(z.dayOf(now)) < z.mid(z.dayOf(now) + 8);
    hide OnAt, IsOn, Fits, CrossingsOf, ValidZone;
    AlwaysFits(z);
    forall t ensures OnAt(z, ALWAYS, t) && IsOn(z, ALWAYS, t) { AlwaysOn(z, t); }
    NoCrossingMeansConstant(z, ALWAYS, now, AddDays(z, now, 8));
  }

  /** A change anywhere in time puts a turn-on after `now`. */
  lemma SettledState(z: Zone, s: Schedule, now: int, t: int)
    requires Uniform(z) && OnAt(z, s, t) != OnAt(z, s, now)
    ensures exists u :: now < u && TurnsOn(z, s, u)
  {
    var on, off := if OnAt(z, s, t) then t else now, if OnAt(z, s, t) then now else t;
    var from := off + WeeksPast(off, now) * WEEK;
    var upto := on + WeeksPast(on, from) * WEEK;
    WeeklyPeriodic(z, s, off, WeeksPast(off, now));
    WeeklyPeriodic(z, s, on, WeeksPast(on, from));
    var u := Rise(z, s, from, upto);
    assert now < u && TurnsOn(z, s, u);
  }

  /** Weeks to add to t to land past `bound`. */
  function WeeksPast(t: int, bound: int): (n: int)
    ensures t + n * WEEK > bound
  {
    (bound - t) / WEEK + 1
  }

  lemma {:induction false} Rise(z: Zone, s: Schedule, from: int, upto: int) returns (u: int)
    requires from < upto && !OnAt(z, s, from) && OnAt(z, s, upto)
    ensures from < u <= upto && TurnsOn(z, s, u)
    decreases upto - from
  {
    if OnAt(z, s, upto - 1) {
      u := Rise(z, s, from, upto - 1);
    } else {
      u := upto;
    }
  }

  // ----- the shutdown form -----

  /** What the form asks for: a wake-up by the schedule, at a given time (None: the text
      is not a time), by hand, or something unknown. */
  datatype WakeChoice = BySchedule | ByDate(date: Option<int>) | ByHand | Unknown

  /** until is the expiry of the host's new "off" override; a refused form creates none. */
  datatype ShutdownForm = Refused | Accepted(until: Option<int>)

  /** A time is accepted strictly after now and up to one year ahead. */
  method HostShutdownUntil(z: Zone, host: Schedule, now: int, yearAhead: int, choice: WakeChoice)
    returns (form: ShutdownForm)
    ensures choice.Unknown? ==> form.Refused?
    ensures choice.ByHand? ==> form == Accepted(None)
    ensures choice.ByDate? ==>
      form == if choice.date.Some? && now < choice.date.value <= yearAhead then Accepted(choice.date) else Refused
    ensures choice.BySchedule? && Uniform(z) && ValidSchedule(host) ==>
      form.Accepted? && ExpiresWithSchedule(z, host, now, form.until)
  {
    match choice {
      case BySchedule =>
        var next := NextHostOn(z, host, now);
        if Uniform(z) && ValidSchedule(host) { ExpiryFollowsSchedule(z, host, now); }
        form := Accepted(next);
      case ByDate(date) =>
        form := if date.Some? && now < date.value <= yearAhead then Accepted(date) else Refused;
      case ByHand => form := Accepted(None);
      case Unknown => form := Refused;
    }
  }

  /** An "off" row created now with this expiry keeps the host off at every instant up to
      the schedule's next turn-on, gives way at that very instant, and lasts forever
      exactly when the schedule has no change at all. */
  ghost predicate ExpiresWithSchedule(z: Zone, host: Schedule, now: int, until: Option<int>) {
    && (forall o: Override, t :: o.until == until && o.createdAt == now && o.cancelledAt.None? && now <= t ==>
          (ActiveAt(o, t) <==> forall u :: now < u <= t ==> !TurnsOn(z, host, u)))
    && (until.Some? ==> IsOn(z, host, until.value))
    && (until.None? <==> forall t :: OnAt(z, host, t) == OnAt(z, host, now))
  }

  lemma ExpiryFollowsSchedule(z: Zone, host: Schedule, now: int)
    requires Uniform(z) && ValidSchedule(host)
    ensures ExpiresWithSchedule(z, host, now, FirstOn(CrossingsOf(z, host, now, AddDays(z, now, 8))))
  {
    LookAheadComplete(z, host, now);
    OffUntilScheduleForever(z, host, now);
    hide OnAt, IsOn, Uniform, CrossingsOf, TurnsOn;
    var until := FirstOn(CrossingsOf(z, host, now, AddDays(z, now, 8)));
    forall o: Override, t | o.until == until && o.createdAt == now && o.cancelledAt.None? && now <= t
      ensures ActiveAt(o, t) <==> forall u :: now < u <= t ==> !TurnsOn(z, host, u)
    {
      if until.Some? && until.value <= t { assert TurnsOn(z, host, until.value); }
    }
  }
}
