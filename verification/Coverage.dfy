/** Schedules under 24-hour days: weekly periodicity and the coverage check of
    internal/config/coverage.go. */
module Coverage {
  import opened Prelude
  import opened Signals
  import opened Schedules
  import opened Guests

  const MINUTE := 60

  /** Every day lasts 24 hours: a fixed-offset zone. */
  ghost predicate Uniform(z: Zone) {
    && (forall d :: z.mid(d) == z.mid(0) + d * DAY)
    && (forall t :: z.mid(z.dayOf(t)) <= t < z.mid(z.dayOf(t) + 1))
  }

  lemma UniformFits(z: Zone, s: Schedule)
    requires Uniform(z) && ValidSchedule(s)
    ensures Fits(z, s)
  {
    forall i, d | 0 <= i < |s| && Applies(s[i], d) ensures s[i].off <= z.mid(d + 2) - z.mid(d + 1) {
      assert z.mid(d + 2) - z.mid(d + 1) == DAY;
    }
  }

  ghost predicate WholeMinutes(s: Schedule) {
    ValidSchedule(s) && forall i :: 0 <= i < |s| ==> s[i].on % 60 == 0 && s[i].off % 60 == 0
  }

  lemma ShiftOneWay(z: Zone, s: Schedule, t: int, weeks: int)
    requires Uniform(z) && OnAt(z, s, t)
    ensures OnAt(z, s, t + weeks * WEEK)
  {
    var i, d :| 0 <= i < |s| && Covers(z, s[i], d, t);
    var e := d + 7 * weeks;
    assert z.mid(e) - z.mid(d) == (e - d) * DAY;
    assert z.mid(e + 1) - z.mid(d + 1) == (e - d) * DAY;
    assert Weekday(e) == Weekday(d);
    assert Covers(z, s[i], e, t + weeks * WEEK);
  }

  /** A schedule repeats every week, in both directions of time. */
  lemma WeeklyPeriodic(z: Zone, s: Schedule, t: int, weeks: int)
    requires Uniform(z)
    ensures OnAt(z, s, t + weeks * WEEK) == OnAt(z, s, t)
  {
    if OnAt(z, s, t) { ShiftOneWay(z, s, t, weeks); }
    if OnAt(z, s, t + weeks * WEEK) { ShiftOneWay(z, s, t + weeks * WEEK, -weeks); }
  }

  lemma EdgeSameWithinMinute(edge: int, a: int, b: int)
    requires edge % 60 == 0 && a / MINUTE == b / MINUTE
    ensures edge <= a <==> edge <= b
  {
    assert edge <= a <==> edge / MINUTE <= a / MINUTE;
  }

  lemma EdgesOnMinutes(z: Zone, w: Window, day: int, d: int)
    requires Uniform(z) && w.on % 60 == 0 && w.off % 60 == 0
    ensures (OnEdge(z, w, d) - z.mid(day)) % 60 == 0
    ensures (OffEdge(z, w, d) - z.mid(day)) % 60 == 0
  {
    assert z.mid(d) - z.mid(day) == (d - day) * DAY == (d - day) * 1440 * MINUTE;
    assert z.mid(d + 1) - z.mid(day) == (d + 1 - day) * DAY == (d + 1 - day) * 1440 * MINUTE;
  }

  lemma WindowSameWithinMinute(z: Zone, w: Window, day: int, d: int, t: int, u: int)
    requires Uniform(z) && w.on % 60 == 0 && w.off % 60 == 0
    requires (t - z.mid(day)) / MINUTE == (u - z.mid(day)) / MINUTE
    ensures Covers(z, w, d, t) == Covers(z, w, d, u)
  {
    EdgesOnMinutes(z, w, day, d);
    EdgeSameWithinMinute(OnEdge(z, w, d) - z.mid(day), t - z.mid(day), u - z.mid(day));
    EdgeSameWithinMinute(OffEdge(z, w, d) - z.mid(day), t - z.mid(day), u - z.mid(day));
  }

  /** With edges on whole minutes the state is the same all through a minute. */
  lemma SameWithinMinute(z: Zone, s: Schedule, day: int, t: int, u: int)
    requires Uniform(z) && WholeMinutes(s)
    requires (t - z.mid(day)) / MINUTE == (u - z.mid(day)) / MINUTE
    ensures OnAt(z, s, t) == OnAt(z, s, u)
  {
    forall i, d | 0 <= i < |s| ensures Covers(z, s[i], d, t) == Covers(z, s[i], d, u) {
      WindowSameWithinMinute(z, s[i], day, d, t, u);
    }
  }

  predicate Gap(z: Zone, inner: Schedule, outer: Schedule, t: int) {
    IsOn(z, inner, t) && !IsOn(z, outer, t)
  }

  /** The minute-by-minute scan of one week starting at midnight of `day`. */
  method FirstGap(z: Zone, inner: Schedule, outer: Schedule, day: int) returns (at: Option<int>)
    ensures at.None? ==> forall t :: z.mid(day) <= t < z.mid(day + 7) && (t - z.mid(day)) % 60 == 0
                           ==> !Gap(z, inner, outer, t)
    ensures at.Some? ==> z.mid(day) <= at.value < z.mid(day + 7) && (at.value - z.mid(day)) % 60 == 0
                         && Gap(z, inner, outer, at.value)
    ensures at.Some? ==> forall t :: z.mid(day) <= t < at.value && (t - z.mid(day)) % 60 == 0
                           ==> !Gap(z, inner, outer, t)
  {
    var start := z.mid(day);
    var t := start;
    while t < z.mid(day + 7)
      invariant start <= t && (t - start) % 60 == 0
      invariant forall u :: start <= u < t && (u - start) % 60 == 0 ==> !Gap(z, inner, outer, u)
    {
      var innerOn := ComputeIsOn(z, inner, t);
      var outerOn := ComputeIsOn(z, outer, t);
      if innerOn && !outerOn { return Some(t); }
      t := t + MINUTE;
    }
    return None;
  }

  ghost predicate NoSampledGap(z: Zone, inner: Schedule, outer: Schedule, day: int) {
    forall t :: z.mid(day) <= t < z.mid(day + 7) && (t - z.mid(day)) % 60 == 0 ==> !Gap(z, inner, outer, t)
  }

  ghost predicate Included(z: Zone, inner: Schedule, outer: Schedule) {
    forall t :: OnAt(z, inner, t) ==> OnAt(z, outer, t)
  }

  /** The sampled instant that decides instant t. */
  function SampleFor(z: Zone, day: int, t: int): int {
    z.mid(day) + ((t - z.mid(day)) % WEEK) / MINUTE * MINUTE
  }

  lemma SampleDecides(z: Zone, s: Schedule, day: int, t: int)
    requires Uniform(z) && WholeMinutes(s)
    ensures OnAt(z, s, t) == OnAt(z, s, SampleFor(z, day, t))
  {
    var weeks := (t - z.mid(day)) / WEEK;
    var u := t - weeks * WEEK;
    WeeklyPeriodic(z, s, t, -weeks);
    assert u - z.mid(day) == (t - z.mid(day)) % WEEK;
    SameWithinMinute(z, s, day, u, SampleFor(z, day, t));
  }

  lemma GapMeaning(z: Zone, inner: Schedule, outer: Schedule, t: int)
    requires Uniform(z) && ValidSchedule(inner) && ValidSchedule(outer)
    ensures Gap(z, inner, outer, t) <==> OnAt(z, inner, t) && !OnAt(z, outer, t)
  {
    UniformFits(z, inner);
    UniformFits(z, outer);
    LookBackSuffices(z, inner, t);
    LookBackSuffices(z, outer, t);
  }

  lemma SampleInWeek(z: Zone, day: int, t: int)
    requires Uniform(z)
    ensures var u := SampleFor(z, day, t);
      z.mid(day) <= u < z.mid(day + 7) && (u - z.mid(day)) % 60 == 0
  {
    assert z.mid(day + 7) - z.mid(day) == WEEK;
  }

  /** 10080 samples settle inclusion at every instant of every week. */
  lemma WeekScanDecides(z: Zone, inner: Schedule, outer: Schedule, day: int)
    requires Uniform(z) && WholeMinutes(inner) && WholeMinutes(outer)
    ensures NoSampledGap(z, inner, outer, day) <==> Included(z, inner, outer)
  {
    if Included(z, inner, outer) {
      forall t ensures !Gap(z, inner, outer, t) { GapMeaning(z, inner, outer, t); }
    }
    if NoSampledGap(z, inner, outer, day) {
      forall t | OnAt(z, inner, t) ensures OnAt(z, outer, t) {
        SampleInWeek(z, day, t);
        SampleDecides(z, inner, day, t);
        SampleDecides(z, outer, day, t);
        GapMeaning(z, inner, outer, SampleFor(z, day, t));
      }
    }
  }

  /** The minute reported is the first instant of its week, sampled or not, with a gap. */
  lemma ReportedGapIsFirst(z: Zone, inner: Schedule, outer: Schedule, day: int, at: int, t: int)
    requires Uniform(z) && WholeMinutes(inner) && WholeMinutes(outer)
    requires z.mid(day) <= at < z.mid(day + 7) && (at - z.mid(day)) % 60 == 0
    requires forall u :: z.mid(day) <= u < at && (u - z.mid(day)) % 60 == 0 ==> !Gap(z, inner, outer, u)
    requires z.mid(day) <= t < at
    ensures OnAt(z, inner, t) ==> OnAt(z, outer, t)
  {
    var u := t - (t - z.mid(day)) % 60;
    SameWithinMinute(z, inner, day, t, u);
    SameWithinMinute(z, outer, day, t, u);
    GapMeaning(z, inner, outer, u);
  }

  // ----- the clock -----

  /** Window w is on x seconds after a Monday's midnight, counting only its instances that
      start in the seven days from then. */
  ghost predicate ClockOn(w: Window, x: int) {
    exists k :: 0 <= k < 7 && k in w.days && DayClockOn(w, k, x)
  }

  predicate DayClockOn(w: Window, k: int, x: int) {
    k * 86400 + w.on <= x < if w.off <= w.on then (k + 1) * 86400 + w.off else k * 86400 + w.off
  }

  lemma ClockOfInstance(z: Zone, w: Window, d: int, t: int)
    requires Uniform(z) && ValidWindow(w) && Covers(z, w, d, t)
    ensures ClockOn(w, (t - z.mid(0)) % WEEK) || ClockOn(w, (t - z.mid(0)) % WEEK + WEEK)
  {
    var k, q := d % 7, d / 7;
    var y := t - z.mid(0) - q * WEEK;
    assert z.mid(d) == z.mid(0) + d * DAY && z.mid(d + 1) == z.mid(0) + (d + 1) * DAY;
    assert DayClockOn(w, k, y);
    assert 0 <= y < 2 * WEEK;
    WeekOffset(t - z.mid(0), q, y);
  }

  lemma WeekOffset(x: int, q: int, y: int)
    requires y == x - q * WEEK && 0 <= y < 2 * WEEK
    ensures y == x % WEEK || y == x % WEEK + WEEK
  {
  }

  lemma InstanceOfClock(z: Zone, w: Window, q: int, y: int, t: int) returns (d: int)
    requires Uniform(z) && ClockOn(w, y) && t == z.mid(0) + q * WEEK + y
    ensures Covers(z, w, d, t)
  {
    var k :| 0 <= k < 7 && k in w.days && DayClockOn(w, k, y);
    d := 7 * q + k;
    assert z.mid(d) == z.mid(0) + d * DAY && z.mid(d + 1) == z.mid(0) + (d + 1) * DAY;
    assert Weekday(d) == k;
  }

  lemma OnByClock(z: Zone, s: Schedule, t: int, i: int, x: int)
    requires Uniform(z) && 0 <= i < |s| && x == (t - z.mid(0)) % WEEK
    requires ClockOn(s[i], x) || ClockOn(s[i], x + WEEK)
    ensures OnAt(z, s, t)
  {
    hide ClockOn, Uniform, Covers;
    var q := (t - z.mid(0)) / WEEK;
    assert t - z.mid(0) == q * WEEK + x;
    var d: int;
    if ClockOn(s[i], x) {
      d := InstanceOfClock(z, s[i], q, x, t);
    } else {
      d := InstanceOfClock(z, s[i], q - 1, x + WEEK, t);
    }
  }

  /** IsOn on the clock, with 24-hour days: t is x seconds into its week, Monday first, and
      some window of some weekday is on then, or a week later, when it began last week. */
  lemma IsOnByClock(z: Zone, s: Schedule, t: int)
    requires Uniform(z) && ValidSchedule(s)
    ensures var x := (t - z.mid(0)) % (7 * 86400);
      IsOn(z, s, t) <==> exists i :: 0 <= i < |s| && (ClockOn(s[i], x) || ClockOn(s[i], x + 7 * 86400))
  {
    UniformFits(z, s);
    LookBackSuffices(z, s, t);
    hide IsOn, ClockOn, Fits, Uniform;
    var x := (t - z.mid(0)) % WEEK;
    if OnAt(z, s, t) {
      var i, d :| 0 <= i < |s| && Covers(z, s[i], d, t);
      ClockOfInstance(z, s[i], d, t);
    }
    forall i | 0 <= i < |s| && (ClockOn(s[i], x) || ClockOn(s[i], x + WEEK)) ensures OnAt(z, s, t) {
      OnByClock(z, s, t, i, x);
    }
  }

  // ----- other weeks -----

  const EVERY_DAY: set<int> := {0, 1, 2, 3, 4, 5, 6}

  const LATE := [Window(EVERY_DAY, 22 * 3600, 23 * 3600 + 1800)]
  const EVENING := [Window(EVERY_DAY, 20 * 3600, 0)]

  lemma LateInEvening(z: Zone)
    requires Uniform(z)
    ensures Included(z, LATE, EVENING)
  {
    forall t | OnAt(z, LATE, t) ensures OnAt(z, EVENING, t) {
      var i, d :| 0 <= i < |LATE| && Covers(z, LATE[i], d, t);
      assert z.mid(d + 1) - z.mid(d) == DAY;
      assert Covers(z, EVENING[0], d, t);
    }
  }

  /** The guest runs daily 22:00-23:30, the host daily 20:00-00:00: the check accepts this in
      every zone with 24-hour days, but at the midnight ending a 23-hour day the guest's
      window is still on, and the code says so, while the host's is over. */
  lemma CoverageDependsOnWeek()
    ensures WholeMinutes(LATE) && WholeMinutes(EVENING)
    ensures forall z :: Uniform(z) ==> Included(z, LATE, EVENING)
    ensures Fits(SpringForward(), LATE) && Fits(SpringForward(), EVENING)
    ensures IsOn(SpringForward(), LATE, 2 * DAY - 3600) && !IsOn(SpringForward(), EVENING, 2 * DAY - 3600)
  {
    forall z | Uniform(z) ensures Included(z, LATE, EVENING) { LateInEvening(z); }
    hide Uniform, Included, Fits, IsOn, WholeMinutes;
    ShortDayFits();
    ShortDayGap();
    LateWholeMinutes();
  }

  lemma LateWholeMinutes()
    ensures WholeMinutes(LATE) && WholeMinutes(EVENING)
  {
  }

  lemma ShortDayGap()
    ensures IsOn(SpringForward(), LATE, 2 * DAY - 3600) && !IsOn(SpringForward(), EVENING, 2 * DAY - 3600)
  {
    var z, t := SpringForward(), 2 * DAY - 3600;
    assert z.dayOf(t) == 2;
    assert Covers(z, LATE[0], 1, t);
  }

  lemma ShortDayFits()
    ensures Fits(SpringForward(), LATE) && Fits(SpringForward(), EVENING)
  {
    SpringForwardValid();
    hide ValidZone;
    forall d | Applies(EVENING[0], d)
      ensures EVENING[0].off <= SpringForward().mid(d + 2) - SpringForward().mid(d + 1)
    { }
  }

  /** Window w lies inside v on the clock: v applies whenever w does, starts no later, ends no
      earlier, and passes midnight exactly when w does. */
  predicate Inside(w: Window, v: Window) {
    w.days <= v.days && v.on <= w.on && w.off <= v.off && (Wraps(w) <==> Wraps(v))
  }

  /** Nesting of windows does not depend on the week: it gives coverage in every zone. */
  lemma NestedIsCovered(z: Zone, inner: Schedule, outer: Schedule)
    requires forall i :: 0 <= i < |inner| ==> exists j :: 0 <= j < |outer| && Inside(inner[i], outer[j])
    ensures Included(z, inner, outer)
  {
    forall t | OnAt(z, inner, t) ensures OnAt(z, outer, t) {
      var i, d :| 0 <= i < |inner| && Covers(z, inner[i], d, t);
      var j :| 0 <= j < |outer| && Inside(inner[i], outer[j]);
      assert Covers(z, outer[j], d, t);
    }
  }

  // ----- validateCoverage -----

  datatype CoverageError = CoverageError(guest: string, at: int)

  /** What makes the sampled week decide: 24-hour days and windows on whole minutes. */
  ghost predicate Decidable(z: Zone, schedules: map<string, Schedule>) {
    Uniform(z) && forall n :: n in schedules ==> WholeMinutes(schedules[n])
  }

  /** e names a guest whose schedule really is on at e.at while the host's is off. */
  ghost predicate Justified(z: Zone, guests: seq<GuestConfig>, schedules: map<string, Schedule>, host: Schedule,
                            e: CoverageError)
  {
    exists i :: && 0 <= i < |guests| && !guests[i].alwaysOn && guests[i].schedule != ""
                && guests[i].schedule in schedules && e.guest == guests[i].name
                && OnAt(z, schedules[guests[i].schedule], e.at) && !OnAt(z, host, e.at)
  }

  /** No error exactly when the schedule of every guest that is not always on and has one
      is, at every instant, inside the host's. The guests come in the order of their names. */
  method ValidateCoverage(z: Zone, day: int, guests: seq<GuestConfig>, schedules: map<string, Schedule>, host: string)
    returns (errs: seq<CoverageError>)
    ensures host !in schedules ==> errs == []
    ensures host in schedules && Decidable(z, schedules) ==>
      (errs == [] <==> forall i :: 0 <= i < |guests| && !guests[i].alwaysOn && guests[i].schedule != "" ==>
         guests[i].schedule in schedules ==> Included(z, schedules[guests[i].schedule], schedules[host]))
    ensures host in schedules && Decidable(z, schedules) ==>
      forall e :: e in errs ==> Justified(z, guests, schedules, schedules[host], e)
  {
    errs := [];
    if host !in schedules { return; }
    var i := 0;
    while i < |guests|
      invariant 0 <= i <= |guests|
      invariant Decidable(z, schedules) ==>
        (errs == [] <==> forall j :: 0 <= j < i && !guests[j].alwaysOn && guests[j].schedule != "" ==>
           guests[j].schedule in schedules ==> Included(z, schedules[guests[j].schedule], schedules[host]))
      invariant Decidable(z, schedules) ==>
        forall e :: e in errs ==> Justified(z, guests, schedules, schedules[host], e)
    {
      hide OnAt, Included, Uniform, WholeMinutes;
      if !guests[i].alwaysOn && guests[i].schedule != "" && guests[i].schedule in schedules {
        var at := CheckIncluded(z, schedules[guests[i].schedule], schedules[host], day);
        if at.Some? {
          errs := errs + [CoverageError(guests[i].name, at.value)];
        }
      }
      i := i + 1;
    }
  }

  /** firstGap, read as the question it answers. */
  method CheckIncluded(z: Zone, inner: Schedule, outer: Schedule, day: int) returns (at: Option<int>)
    ensures Uniform(z) && WholeMinutes(inner) && WholeMinutes(outer) ==>
      && (at.None? <==> Included(z, inner, outer))
      && (at.Some? ==> OnAt(z, inner, at.value) && !OnAt(z, outer, at.value))
      && (at.Some? ==> forall t :: z.mid(day) <= t < at.value ==> (OnAt(z, inner, t) ==> OnAt(z, outer, t)))
  {
    at := FirstGap(z, inner, outer, day);
    if Uniform(z) && WholeMinutes(inner) && WholeMinutes(outer) {
      WeekScanDecides(z, inner, outer, day);
      if at.Some? {
        GapMeaning(z, inner, outer, at.value);
        forall t | z.mid(day) <= t < at.value ensures OnAt(z, inner, t) ==> OnAt(z, outer, t) {
          ReportedGapIsFirst(z, inner, outer, day, at.value, t);
        }
      }
    }
  }
}
